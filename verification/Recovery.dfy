/** Recovering an account from a server backup: one pass over the lines, which
    must amount to a join of five tables. */
module Recovery {
  import opened Wrappers
  import opened Seqs
  import opened Text
  import opened Backups
  import opened BackupCycle
  import opened Crypto
  import Attachments

  type Bytes = seq<byte>

  // ---- rows, a column being None when it cannot be read ---------------------------------

  datatype UserRow = UserRow(email: Option<string>, id: Option<Uuid>, wrapped: Option<Bytes>)

  /** `body` is None when the name or the manifest cannot be read. */
  datatype VaultRow = VaultRow(id: Option<Uuid>, body: Option<VaultBody>)
  datatype VaultBody = VaultBody(personal: bool, nameEnc: Bytes, revision: int, manifest: Option<(Bytes, int)>)

  datatype MemberRow = MemberRow(userId: Option<Uuid>, vaultId: Option<Uuid>, key: Option<Bytes>)

  datatype ItemRow = ItemRow(vaultId: Option<Uuid>, item: Option<Item>)
  datatype Item = Item(id: Uuid, itemType: string, revision: int, ciphertext: Bytes, deleted: bool)

  datatype ChunkRow = ChunkRow(vaultId: Option<Uuid>, attachmentId: Option<Uuid>, idx: Option<int>, ciphertext: Option<Bytes>)

  /** The JSON library, table by table; addresses in lower case. */
  datatype Json = Json(
    user: string -> Option<UserRow>,
    vault: string -> Option<VaultRow>,
    member: string -> Option<MemberRow>,
    item: string -> Option<ItemRow>,
    chunk: string -> Option<ChunkRow>)

  const USERS := "users"
  const VAULTS := "vaults"
  const MEMBERS := "vault_members"
  const ITEMS := "items"
  const CHUNKS := "attachment_chunks"

  type ChunkId = (Uuid, Uuid, nat)

  datatype State = State(
    user: Option<(Uuid, Bytes)>,
    vaults: map<Uuid, VaultRow>,
    members: map<Uuid, Bytes>,
    items: map<Uuid, seq<Item>>,
    chunks: map<ChunkId, Bytes>)

  const START := State(None, map[], map[], map[], map[])

  /** An index, cut to 32 bits. */
  function Index(i: int): nat { i % 0x1_0000_0000 }

  // ---- one row ---------------------------------------------------------------------------

  function TakeUser(email: string, st: State, row: UserRow): Option<State> {
    if row.email != Some(email) then Some(st)
    else if row.id.None? || row.wrapped.None? then None
    else Some(st.(user := Some((row.id.value, row.wrapped.value))))
  }

  function TakeVault(st: State, row: VaultRow): Option<State> {
    if row.id.None? then None else Some(st.(vaults := st.vaults[row.id.value := row]))
  }

  function TakeMember(st: State, row: MemberRow): Option<State> {
    if st.user.None? || row.userId != Some(st.user.value.0) then Some(st)
    else if row.vaultId.None? || row.key.None? then None
    else Some(st.(members := st.members[row.vaultId.value := row.key.value]))
  }

  function ItemsIn(st: State, v: Uuid): seq<Item> { if v in st.items then st.items[v] else [] }

  function TakeItem(st: State, row: ItemRow): Option<State> {
    if row.vaultId.None? then None
    else if row.vaultId.value !in st.members then Some(st)
    else if row.item.None? then None
    else Some(st.(items := st.items[row.vaultId.value := ItemsIn(st, row.vaultId.value) + [row.item.value]]))
  }

  function TakeChunk(st: State, row: ChunkRow): Option<State> {
    if row.vaultId.None? then None
    else if row.vaultId.value !in st.members then Some(st)
    else if row.attachmentId.None? || row.idx.None? || row.ciphertext.None? then None
    else Some(st.(chunks := st.chunks[(row.vaultId.value, row.attachmentId.value, Index(row.idx.value)) := row.ciphertext.value]))
  }

  /** One row of the file; None when it must be read and cannot. */
  function Take(json: Json, email: string, st: State, p: Pair): Option<State> {
    if p.0 == USERS then
      var row := json.user(p.1);
      if row.None? then None else TakeUser(email, st, row.value)
    else if p.0 == VAULTS then
      var row := json.vault(p.1);
      if row.None? then None else TakeVault(st, row.value)
    else if p.0 == MEMBERS then
      var row := json.member(p.1);
      if row.None? then None else TakeMember(st, row.value)
    else if p.0 == ITEMS then
      var row := json.item(p.1);
      if row.None? then None else TakeItem(st, row.value)
    else if p.0 == CHUNKS then
      var row := json.chunk(p.1);
      if row.None? then None else TakeChunk(st, row.value)
    else Some(st)
  }

  function Scan(json: Json, email: string, pairs: seq<Pair>): Option<State> {
    if pairs == [] then Some(START)
    else
      var st := Scan(json, email, pairs[..|pairs| - 1]);
      if st.None? then None else Take(json, email, st.value, pairs[|pairs| - 1])
  }

  // ---- the vaults of the account ---------------------------------------------------------

  datatype Vault = Vault(body: VaultBody, key: Bytes, items: seq<Item>)
  datatype Recovered = Recovered(wrapped: Bytes, vaults: map<Uuid, Vault>, chunks: map<ChunkId, Bytes>)

  /** The memberships whose vault is there. */
  function Joined(st: State): set<Uuid> { st.members.Keys * st.vaults.Keys }

  function Gather(st: State): Option<Recovered>
    requires st.user.Some?
  {
    if exists v :: v in Joined(st) && st.vaults[v].body.None? then None
    else Some(Recovered(st.user.value.1, map v | v in Joined(st) :: Vault(st.vaults[v].body.value, st.members[v], ItemsIn(st, v)), st.chunks))
  }

  // ---- the file --------------------------------------------------------------------------

  datatype Failure = NotABackup | Malformed(n: nat) | Unreadable(n: nat) | NoEnd | NoAccount | WrongPassword | UnreadableVault

  /** The rows down to END; None without END, or with a line that has no tab. */
  function ToEnd(lines: seq<Line>): Option<seq<Pair>> {
    if lines == [] then None
    else
      var split := SplitOnce(lines[0]);
      if split.None? then None
      else if split.value.0 == END then Some([])
      else
        var rest := ToEnd(lines[1..]);
        if rest.None? then None else Some([split.value] + rest.value)
  }

  predicate StartsLikeABackup(lines: seq<Line>) {
    lines != [] && SplitOnce(lines[0]).Some? && SplitOnce(lines[0]).value.0 == MAGIC
  }

  /** What the whole pass comes to. */
  function Outcome(json: Json, unlock: Bytes -> bool, email: string, lines: seq<Line>): Option<Recovered> {
    if !StartsLikeABackup(lines) || ToEnd(lines[1..]).None? then None
    else
      var st := Scan(json, email, ToEnd(lines[1..]).value);
      if st.None? || st.value.user.None? || !unlock(st.value.user.value.1) then None
      else Gather(st.value)
  }

  lemma {:induction false} ScanFails(json: Json, email: string, a: seq<Pair>, b: seq<Pair>)
    requires Scan(json, email, a).None?
    ensures Scan(json, email, a + b).None?
    decreases |b|
  {
    if b == [] {
      assert a + b == a;
    } else {
      var n := |b| - 1;
      ScanFails(json, email, a, b[..n]);
      assert (a + b)[..|a + b| - 1] == a + b[..n];
    }
  }

  lemma NextLine(lines: seq<Line>, i: nat, pairs: seq<Pair>)
    requires i < |lines|
    ensures var split := SplitOnce(lines[i]);
            ToEnd(lines[i..]) == if split.None? then None
                                 else if split.value.0 == END then Some([])
                                 else if ToEnd(lines[i + 1..]).None? then None
                                 else Some([split.value] + ToEnd(lines[i + 1..]).value)
    ensures forall p: Pair, rest: seq<Pair> :: pairs + ([p] + rest) == pairs + [p] + rest
  {
    assert lines[i..][1..] == lines[i + 1..];
  }

  lemma ScanOneMore(json: Json, email: string, pairs: seq<Pair>, p: Pair)
    requires Scan(json, email, pairs).Some?
    ensures Scan(json, email, pairs + [p]) == Take(json, email, Scan(json, email, pairs).value, p)
  {
    assert (pairs + [p])[..|pairs|] == pairs;
  }

  /** What each failure says of the file: of a line, counted from 1 and before
      any end, or of what the whole of it comes to. */
  ghost predicate Explains(json: Json, unlock: Bytes -> bool, email: string, lines: seq<Line>, e: Failure) {
    match e
    case NotABackup => lines == [] || !IsTagged(lines[0], "GUIVAULT-BACKUP")
    case Malformed(n) => 2 <= n <= |lines| && BeforeEnd(lines, n) && '\t' !in lines[n - 1]
    case Unreadable(n) =>
      && 2 <= n <= |lines| && BeforeEnd(lines, n) && SplitOnce(lines[n - 1]).Some?
      && exists above: seq<Pair> :: CannotTake(json, email, lines, n, above)
    case NoEnd => BeforeEnd(lines, |lines|)
    case NoAccount => Scanned(json, email, lines).Some? && Scanned(json, email, lines).value.user.None?
    case WrongPassword =>
      var st := Scanned(json, email, lines);
      st.Some? && st.value.user.Some? && !unlock(st.value.user.value.1)
    case UnreadableVault =>
      var st := Scanned(json, email, lines);
      && st.Some? && st.value.user.Some? && unlock(st.value.user.value.1)
      && exists v :: v in st.value.members && v in st.value.vaults && st.value.vaults[v].body.None?
  }

  /** The rows above the n-th line can be taken, that line cannot. */
  ghost predicate CannotTake(json: Json, email: string, lines: seq<Line>, n: nat, above: seq<Pair>)
    requires 0 < n <= |lines| && SplitOnce(lines[n - 1]).Some?
  {
    && |above| + 2 == n && (forall k :: 0 <= k < |above| ==> SplitOnce(lines[k + 1]) == Some(above[k]))
    && Scan(json, email, above).Some? && Take(json, email, Scan(json, email, above).value, SplitOnce(lines[n - 1]).value).None?
  }

  function Scanned(json: Json, email: string, lines: seq<Line>): Option<State> {
    if lines == [] || ToEnd(lines[1..]).None? then None else Scan(json, email, ToEnd(lines[1..]).value)
  }

  /** All the lines, down to END. */
  method ReadAll(json: Json, email: string, lines: seq<Line>, ghost unlock: Bytes -> bool) returns (r: Result<State, Failure>)
    requires StartsLikeABackup(lines)
    ensures r.Err? ==> Explains(json, unlock, email, lines, r.error)
    ensures ToEnd(lines[1..]).None? ==> r.Err?
    ensures ToEnd(lines[1..]).Some? ==>
              if r.Ok? then Scan(json, email, ToEnd(lines[1..]).value) == Some(r.value)
              else Scan(json, email, ToEnd(lines[1..]).value).None?
  {
    var st := START;
    ghost var pairs: seq<Pair> := [];
    ghost var all := ToEnd(lines[1..]);
    assert ToEnd(lines[1..]).Some? ==> [] + ToEnd(lines[1..]).value == ToEnd(lines[1..]).value;
    for i := 1 to |lines|
      invariant all.Some? <==> ToEnd(lines[i..]).Some?
      invariant all.Some? ==> all.value == pairs + ToEnd(lines[i..]).value
      invariant Scan(json, email, pairs) == Some(st)
      invariant BeforeEnd(lines, i) && |pairs| + 1 == i && forall k :: 0 <= k < |pairs| ==> SplitOnce(lines[k + 1]) == Some(pairs[k])
    {
      NextLine(lines, i, pairs);
      var split := SplitOnce(lines[i]);
      if split.None? {
        NoTab(lines[i]);
        assert BeforeEnd(lines, i + 1);
        return Err(Malformed(i + 1));
      }
      var (table, text) := split.value;
      if table == END {
        assert all.Some? ==> all.value == pairs;
        return Ok(st);
      }
      ScanOneMore(json, email, pairs, (table, text));
      var next := Take(json, email, st, (table, text));
      if next.None? {
        if all.Some? {
          ScanFails(json, email, pairs + [(table, text)], ToEnd(lines[i + 1..]).value);
        }
        assert CannotTake(json, email, lines, i + 1, pairs) && BeforeEnd(lines, i + 1);
        return Err(Unreadable(i + 1));
      }
      st := next.value;
      pairs := pairs + [(table, text)];
    }
    return Err(Failure.NoEnd);
  }

  /** Everything the account can read, from the lines of a backup. */
  method FromBackup(json: Json, unlock: Bytes -> bool, email: string, lines: seq<Line>) returns (r: Result<Recovered, Failure>)
    ensures if r.Ok? then Outcome(json, unlock, email, lines) == Some(r.value) else Outcome(json, unlock, email, lines).None?
    ensures r.Err? ==> Explains(json, unlock, email, lines, r.error)
    ensures r.Ok? ==> lines != [] && IsTagged(lines[0], "GUIVAULT-BACKUP")
  {
    if !StartsLikeABackup(lines) {
      return Err(Failure.NotABackup);
    }
    var read := ReadAll(json, email, lines, unlock);
    if read.Err? {
      return Err(read.error);
    }
    var st := read.value;
    if st.user.None? {
      return Err(NoAccount);
    }
    if !unlock(st.user.value.1) {
      return Err(WrongPassword);
    }
    var gathered := Gather(st);
    if gathered.None? {
      return Err(UnreadableVault);
    }
    return Ok(gathered.value);
  }

  // ---- the same as queries, table by table -------------------------------------------------

  type Rows = seq<string>

  function SelectUser(json: Json, email: string, rows: Rows): Option<Option<(Uuid, Bytes)>> {
    if rows == [] then Some(None)
    else
      var before, row := SelectUser(json, email, rows[..|rows| - 1]), json.user(rows[|rows| - 1]);
      if before.None? || row.None? then None
      else if row.value.email != Some(email) then before
      else if row.value.id.None? || row.value.wrapped.None? then None
      else Some(Some((row.value.id.value, row.value.wrapped.value)))
  }

  function SelectVaults(json: Json, rows: Rows): Option<map<Uuid, VaultRow>> {
    if rows == [] then Some(map[])
    else
      var before, row := SelectVaults(json, rows[..|rows| - 1]), json.vault(rows[|rows| - 1]);
      if before.None? || row.None? || row.value.id.None? then None
      else Some(before.value[row.value.id.value := row.value])
  }

  function SelectMembers(json: Json, user: Option<(Uuid, Bytes)>, rows: Rows): Option<map<Uuid, Bytes>> {
    if rows == [] then Some(map[])
    else
      var before, row := SelectMembers(json, user, rows[..|rows| - 1]), json.member(rows[|rows| - 1]);
      if before.None? || row.None? then None
      else if user.None? || row.value.userId != Some(user.value.0) then before
      else if row.value.vaultId.None? || row.value.key.None? then None
      else Some(before.value[row.value.vaultId.value := row.value.key.value])
  }

  function SelectItems(json: Json, vaults: set<Uuid>, rows: Rows): Option<map<Uuid, seq<Item>>> {
    if rows == [] then Some(map[])
    else
      var before, row := SelectItems(json, vaults, rows[..|rows| - 1]), json.item(rows[|rows| - 1]);
      if before.None? || row.None? || row.value.vaultId.None? then None
      else
        var v := row.value.vaultId.value;
        if v !in vaults then before
        else if row.value.item.None? then None
        else Some(before.value[v := (if v in before.value then before.value[v] else []) + [row.value.item.value]])
  }

  function SelectChunks(json: Json, vaults: set<Uuid>, rows: Rows): Option<map<ChunkId, Bytes>> {
    if rows == [] then Some(map[])
    else
      var before, row := SelectChunks(json, vaults, rows[..|rows| - 1]), json.chunk(rows[|rows| - 1]);
      if before.None? || row.None? || row.value.vaultId.None? then None
      else if row.value.vaultId.value !in vaults then before
      else if row.value.attachmentId.None? || row.value.idx.None? || row.value.ciphertext.None? then None
      else Some(before.value[(row.value.vaultId.value, row.value.attachmentId.value, Index(row.value.idx.value))
                             := row.value.ciphertext.value])
  }

  /** The join: the account, its memberships, and what is in those vaults. */
  function Join(json: Json, email: string, users: Rows, vaults: Rows, members: Rows, items: Rows, chunks: Rows): Option<State> {
    var user, all := SelectUser(json, email, users), SelectVaults(json, vaults);
    if user.None? || all.None? then None
    else
      var mine := SelectMembers(json, user.value, members);
      if mine.None? then None
      else
        var theirs, files := SelectItems(json, mine.value.Keys, items), SelectChunks(json, mine.value.Keys, chunks);
        if theirs.None? || files.None? then None
        else Some(State(user.value, all.value, mine.value, theirs.value, files.value))
  }

  function JoinOf(json: Json, email: string, pairs: seq<Pair>): Option<State> {
    Join(json, email, RowsIn(pairs, USERS), RowsIn(pairs, VAULTS), RowsIn(pairs, MEMBERS), RowsIn(pairs, ITEMS), RowsIn(pairs, CHUNKS))
  }

  /** What one pass relies on. */
  ghost predicate ParentsFirst(pairs: seq<Pair>) {
    && Before(pairs, USERS, MEMBERS)
    && Before(pairs, MEMBERS, ITEMS)
    && Before(pairs, MEMBERS, CHUNKS)
  }

  lemma BeforeFront(pairs: seq<Pair>, p: Pair, a: string, b: string)
    requires Before(pairs + [p], a, b)
    ensures Before(pairs, a, b)
    ensures p.0 == a ==> RowsIn(pairs, b) == []
  {
    var all := pairs + [p];
    assert forall i :: 0 <= i < |pairs| ==> all[i] == pairs[i];
    assert all[|pairs|] == p;
    if p.0 == a {
      forall q | q in pairs ensures q.0 != b {
        var j :| 0 <= j < |pairs| && pairs[j] == q;
        assert all[j] == q;
      }
      FilterNone(pairs, TagIs(b));
    }
  }

  lemma LastRow(rows: Rows, row: string)
    ensures (rows + [row])[..|rows|] == rows && (rows + [row])[|rows|] == row
  {}

  lemma JoinUser(json: Json, email: string, users: Rows, vaults: Rows, items: Rows, chunks: Rows, row: string)
    ensures var st := Join(json, email, users, vaults, [], items, chunks);
            Join(json, email, users + [row], vaults, [], items, chunks)
            == if st.None? || json.user(row).None? then None else TakeUser(email, st.value, json.user(row).value)
  {
    LastRow(users, row);
  }

  lemma JoinVault(json: Json, email: string, users: Rows, vaults: Rows, members: Rows, items: Rows, chunks: Rows, row: string)
    ensures var st := Join(json, email, users, vaults, members, items, chunks);
            Join(json, email, users, vaults + [row], members, items, chunks)
            == if st.None? || json.vault(row).None? then None else TakeVault(st.value, json.vault(row).value)
  {
    LastRow(vaults, row);
  }

  lemma JoinMember(json: Json, email: string, users: Rows, vaults: Rows, members: Rows, row: string)
    ensures var st := Join(json, email, users, vaults, members, [], []);
            Join(json, email, users, vaults, members + [row], [], [])
            == if st.None? || json.member(row).None? then None else TakeMember(st.value, json.member(row).value)
  {
    LastRow(members, row);
  }

  lemma JoinItem(json: Json, email: string, users: Rows, vaults: Rows, members: Rows, items: Rows, chunks: Rows, row: string)
    ensures var st := Join(json, email, users, vaults, members, items, chunks);
            Join(json, email, users, vaults, members, items + [row], chunks)
            == if st.None? || json.item(row).None? then None else TakeItem(st.value, json.item(row).value)
  {
    LastRow(items, row);
  }

  lemma JoinChunk(json: Json, email: string, users: Rows, vaults: Rows, members: Rows, items: Rows, chunks: Rows, row: string)
    ensures var st := Join(json, email, users, vaults, members, items, chunks);
            Join(json, email, users, vaults, members, items, chunks + [row])
            == if st.None? || json.chunk(row).None? then None else TakeChunk(st.value, json.chunk(row).value)
  {
    LastRow(chunks, row);
  }

  lemma TablesDiffer()
    ensures USERS != VAULTS && USERS != MEMBERS && USERS != ITEMS && USERS != CHUNKS
    ensures VAULTS != MEMBERS && VAULTS != ITEMS && VAULTS != CHUNKS
    ensures MEMBERS != ITEMS && MEMBERS != CHUNKS && ITEMS != CHUNKS
  {
    assert USERS[0] == 'u' && VAULTS[0] == 'v' && ITEMS[0] == 'i' && CHUNKS[0] == 'a';
    assert |MEMBERS| != |VAULTS| && MEMBERS[0] == 'v';
  }

  /** One row more in the join. */
  lemma JoinOneMore(json: Json, email: string, pairs: seq<Pair>, p: Pair)
    requires ParentsFirst(pairs + [p])
    ensures ParentsFirst(pairs)
    ensures JoinOf(json, email, pairs + [p])
            == if JoinOf(json, email, pairs).None? then None else Take(json, email, JoinOf(json, email, pairs).value, p)
  {
    TablesDiffer();
    BeforeFront(pairs, p, USERS, MEMBERS);
    BeforeFront(pairs, p, MEMBERS, ITEMS);
    BeforeFront(pairs, p, MEMBERS, CHUNKS);
    if p.0 == USERS || p.0 == MEMBERS {
      JoinParent(json, email, pairs, p);
    } else {
      JoinOther(json, email, pairs, p);
    }
  }

  lemma RowsOfAll(pairs: seq<Pair>, p: Pair)
    ensures forall t :: RowsIn(pairs + [p], t) == if p.0 == t then RowsIn(pairs, t) + [p.1] else RowsIn(pairs, t)
  {
    forall t ensures RowsIn(pairs + [p], t) == if p.0 == t then RowsIn(pairs, t) + [p.1] else RowsIn(pairs, t) {
      RowsOfOneMore(pairs, p, t);
    }
  }

  lemma JoinParent(json: Json, email: string, pairs: seq<Pair>, p: Pair)
    requires p.0 == USERS ==> RowsIn(pairs, MEMBERS) == []
    requires p.0 == MEMBERS ==> RowsIn(pairs, ITEMS) == [] && RowsIn(pairs, CHUNKS) == []
    requires p.0 == USERS || p.0 == MEMBERS
    ensures JoinOf(json, email, pairs + [p])
            == if JoinOf(json, email, pairs).None? then None else Take(json, email, JoinOf(json, email, pairs).value, p)
  {
    TablesDiffer();
    RowsOfAll(pairs, p);
    if p.0 == MEMBERS {
      JoinMember(json, email, RowsIn(pairs, USERS), RowsIn(pairs, VAULTS), RowsIn(pairs, MEMBERS), p.1);
    } else {
      JoinUser(json, email, RowsIn(pairs, USERS), RowsIn(pairs, VAULTS), RowsIn(pairs, ITEMS), RowsIn(pairs, CHUNKS), p.1);
    }
  }

  lemma JoinOther(json: Json, email: string, pairs: seq<Pair>, p: Pair)
    requires p.0 != USERS && p.0 != MEMBERS
    ensures JoinOf(json, email, pairs + [p])
            == if JoinOf(json, email, pairs).None? then None else Take(json, email, JoinOf(json, email, pairs).value, p)
  {
    TablesDiffer();
    RowsOfAll(pairs, p);
    var users, vaults, members := RowsIn(pairs, USERS), RowsIn(pairs, VAULTS), RowsIn(pairs, MEMBERS);
    var items, chunks := RowsIn(pairs, ITEMS), RowsIn(pairs, CHUNKS);
    if p.0 == VAULTS {
      JoinVault(json, email, users, vaults, members, items, chunks, p.1);
    } else if p.0 == ITEMS {
      JoinItem(json, email, users, vaults, members, items, chunks, p.1);
    } else if p.0 == CHUNKS {
      JoinChunk(json, email, users, vaults, members, items, chunks, p.1);
    }
  }

  /** Rows of parents first: one pass is the join, failures included. */
  lemma {:induction false} OnePassIsTheJoin(json: Json, email: string, pairs: seq<Pair>)
    requires ParentsFirst(pairs)
    ensures Scan(json, email, pairs) == JoinOf(json, email, pairs)
  {
    if pairs != [] {
      var front, p := pairs[..|pairs| - 1], pairs[|pairs| - 1];
      assert pairs == front + [p];
      JoinOneMore(json, email, front, p);
      OnePassIsTheJoin(json, email, front);
    }
  }

  /** A membership before its account is lost: the same rows, another result. */
  lemma OrderMatters(json: Json, email: string, id: Uuid, vault: Uuid, user: string, member: string, wrapped: Bytes, key: Bytes)
    requires json.user(user) == Some(UserRow(Some(email), Some(id), Some(wrapped)))
    requires json.member(member) == Some(MemberRow(Some(id), Some(vault), Some(key)))
    ensures var right, wrong := [(USERS, user), (MEMBERS, member)], [(MEMBERS, member), (USERS, user)];
            && JoinOf(json, email, wrong) == JoinOf(json, email, right)
            && Scan(json, email, right).Some? && Scan(json, email, right).value.members == map[vault := key]
            && Scan(json, email, wrong).Some? && Scan(json, email, wrong).value.members == map[]
  {
    TablesDiffer();
    var u, m: Pair := (USERS, user), (MEMBERS, member);
    SwapRows(json, email, u, m);
    var known := START.(user := Some((id, wrapped)));
    assert Take(json, email, START, u) == Some(known);
    assert Take(json, email, known, m) == Some(known.(members := map[vault := key]));
    assert Take(json, email, START, m) == Some(START);
    ScanTwo(json, email, u, m);
    ScanTwo(json, email, m, u);
  }

  lemma ScanTwo(json: Json, email: string, p: Pair, q: Pair)
    ensures Scan(json, email, [p, q]) == if Take(json, email, START, p).None? then None
                                         else Take(json, email, Take(json, email, START, p).value, q)
  {
    ScanOneMore(json, email, [], p);
    assert [] + [p] == [p] && [p] + [q] == [p, q];
    if Scan(json, email, [p]).Some? {
      ScanOneMore(json, email, [p], q);
    } else {
      ScanFails(json, email, [p], [q]);
    }
  }

  lemma SwapRows(json: Json, email: string, p: Pair, q: Pair)
    requires p.0 != q.0
    ensures JoinOf(json, email, [q, p]) == JoinOf(json, email, [p, q])
  {
    forall t ensures RowsIn([q, p], t) == RowsIn([p, q], t) {
      assert [q, p] == [q] + [p] && [p, q] == [p] + [q];
      RowsInConcat([q], [p], t);
      RowsInConcat([p], [q], t);
      assert p.0 != t ==> RowsIn([p], t) == [];
      assert q.0 != t ==> RowsIn([q], t) == [];
    }
  }

  // ---- what the join selects -----------------------------------------------------------------

  ghost predicate UserRowOf(json: Json, email: string, rows: Rows, id: Uuid, wrapped: Bytes) {
    exists row :: row in rows && json.user(row) == Some(UserRow(Some(email), Some(id), Some(wrapped)))
  }

  /** Addresses are unique. */
  ghost predicate OneAccount(json: Json, email: string, rows: Rows) {
    forall i, w, i', w' :: UserRowOf(json, email, rows, i, w) && UserRowOf(json, email, rows, i', w') ==> i == i' && w == w'
  }

  lemma UserRowsOfOneMore(json: Json, email: string, rows: Rows, row: string, id: Uuid, wrapped: Bytes)
    ensures UserRowOf(json, email, rows + [row], id, wrapped)
            <==> UserRowOf(json, email, rows, id, wrapped) || json.user(row) == Some(UserRow(Some(email), Some(id), Some(wrapped)))
  {
    assert forall r :: r in rows + [row] <==> r in rows || r == row;
  }

  /** The account selected is that of the address. */
  lemma {:induction false} UserMeans(json: Json, email: string, rows: Rows, id: Uuid, wrapped: Bytes)
    requires SelectUser(json, email, rows).Some? && OneAccount(json, email, rows)
    ensures SelectUser(json, email, rows).value == Some((id, wrapped)) <==> UserRowOf(json, email, rows, id, wrapped)
  {
    if rows != [] {
      var front, row := rows[..|rows| - 1], rows[|rows| - 1];
      assert rows == front + [row];
      forall i, w ensures UserRowOf(json, email, front, i, w) ==> UserRowOf(json, email, rows, i, w) {
        UserRowsOfOneMore(json, email, front, row, i, w);
      }
      UserMeans(json, email, front, id, wrapped);
      UserRowsOfOneMore(json, email, front, row, id, wrapped);
      var r := json.user(row).value;
      if r.email == Some(email) {
        assert UserRowOf(json, email, rows, r.id.value, r.wrapped.value);
      }
    }
  }

  ghost predicate VaultRowOf(json: Json, rows: Rows, v: Uuid, vault: VaultRow) {
    vault.id == Some(v) && exists row :: row in rows && json.vault(row) == Some(vault)
  }

  ghost predicate OneVaultEach(json: Json, rows: Rows) {
    forall v, a, b :: VaultRowOf(json, rows, v, a) && VaultRowOf(json, rows, v, b) ==> a == b
  }

  lemma VaultRowsOfOneMore(json: Json, rows: Rows, row: string, v: Uuid, vault: VaultRow)
    ensures VaultRowOf(json, rows + [row], v, vault)
            <==> VaultRowOf(json, rows, v, vault) || (vault.id == Some(v) && json.vault(row) == Some(vault))
  {
    assert forall r :: r in rows + [row] <==> r in rows || r == row;
  }

  /** The vaults selected are all those there are, each as it is. */
  lemma {:induction false} VaultsMean(json: Json, rows: Rows, v: Uuid, vault: VaultRow)
    requires SelectVaults(json, rows).Some? && OneVaultEach(json, rows)
    ensures var all := SelectVaults(json, rows).value;
            v in all && all[v] == vault <==> VaultRowOf(json, rows, v, vault)
  {
    if rows != [] {
      var front, row := rows[..|rows| - 1], rows[|rows| - 1];
      assert rows == front + [row];
      forall v', a ensures VaultRowOf(json, front, v', a) ==> VaultRowOf(json, rows, v', a) {
        VaultRowsOfOneMore(json, front, row, v', a);
      }
      VaultsMean(json, front, v, vault);
      VaultRowsOfOneMore(json, front, row, v, vault);
      var r := json.vault(row).value;
      VaultRowsOfOneMore(json, front, row, r.id.value, r);
    }
  }

  ghost predicate MemberRowOf(json: Json, user: Uuid, rows: Rows, v: Uuid, key: Bytes) {
    exists row :: row in rows && json.member(row) == Some(MemberRow(Some(user), Some(v), Some(key)))
  }

  /** One key for each vault and account. */
  ghost predicate OneKeyEach(json: Json, user: Uuid, rows: Rows) {
    forall v, k, k' :: MemberRowOf(json, user, rows, v, k) && MemberRowOf(json, user, rows, v, k') ==> k == k'
  }

  lemma MemberRowsOfOneMore(json: Json, user: Uuid, rows: Rows, row: string, v: Uuid, key: Bytes)
    ensures MemberRowOf(json, user, rows + [row], v, key)
            <==> MemberRowOf(json, user, rows, v, key) || json.member(row) == Some(MemberRow(Some(user), Some(v), Some(key)))
  {
    assert forall r :: r in rows + [row] <==> r in rows || r == row;
  }

  /** The memberships selected are those of the account, each with its key. */
  lemma {:induction false} MembersMean(json: Json, user: (Uuid, Bytes), rows: Rows, v: Uuid, key: Bytes)
    requires SelectMembers(json, Some(user), rows).Some? && OneKeyEach(json, user.0, rows)
    ensures var mine := SelectMembers(json, Some(user), rows).value;
            v in mine && mine[v] == key <==> MemberRowOf(json, user.0, rows, v, key)
  {
    if rows != [] {
      var front, row := rows[..|rows| - 1], rows[|rows| - 1];
      assert rows == front + [row];
      forall v', k' ensures MemberRowOf(json, user.0, front, v', k') ==> MemberRowOf(json, user.0, rows, v', k') {
        MemberRowsOfOneMore(json, user.0, front, row, v', k');
      }
      MembersMean(json, user, front, v, key);
      MemberRowsOfOneMore(json, user.0, front, row, v, key);
      var r := json.member(row).value;
      if r.userId == Some(user.0) && r.vaultId == Some(v) {
        assert MemberRowOf(json, user.0, rows, v, r.key.value);
      }
    }
  }

  function OfVault(json: Json, v: Uuid): string -> bool {
    (row: string) => json.item(row).Some? && json.item(row).value.vaultId == Some(v) && json.item(row).value.item.Some?
  }

  /** The items kept of a vault are its rows, all of them, in file order. */
  lemma {:induction false} ItemsMean(json: Json, vaults: set<Uuid>, rows: Rows, v: Uuid)
    requires SelectItems(json, vaults, rows).Some?
    ensures var items, own := SelectItems(json, vaults, rows).value, Filter(rows, OfVault(json, v));
            && (v in items <==> v in vaults && own != [])
            && (v in items ==> |items[v]| == |own| && forall i :: 0 <= i < |own| ==> json.item(own[i]) == Some(ItemRow(Some(v), Some(items[v][i]))))
  {
    if rows != [] {
      var front, row := rows[..|rows| - 1], rows[|rows| - 1];
      assert rows == front + [row];
      FilterConcat(front, [row], OfVault(json, v));
      ItemsMean(json, vaults, front, v);
    }
  }

  ghost predicate ChunkRowOf(json: Json, rows: Rows, id: ChunkId, data: Bytes) {
    exists row, i :: row in rows && json.chunk(row) == Some(ChunkRow(Some(id.0), Some(id.1), Some(i), Some(data)))
                    && i % 0x1_0000_0000 == id.2
  }

  ghost predicate OneDataEach(json: Json, rows: Rows) {
    forall id, d, d' :: ChunkRowOf(json, rows, id, d) && ChunkRowOf(json, rows, id, d') ==> d == d'
  }

  lemma ChunkRowsOfOneMore(json: Json, rows: Rows, row: string, id: ChunkId, data: Bytes)
    ensures ChunkRowOf(json, rows + [row], id, data) <==> ChunkRowOf(json, rows, id, data) || ChunkRowOf(json, [row], id, data)
  {
    assert forall r :: r in rows + [row] <==> r in rows || r in [row];
  }

  /** The chunks kept are those of the account's vaults, all of them. */
  lemma {:induction false} ChunksMean(json: Json, vaults: set<Uuid>, rows: Rows, id: ChunkId, data: Bytes)
    requires SelectChunks(json, vaults, rows).Some? && OneDataEach(json, rows)
    ensures var chunks := SelectChunks(json, vaults, rows).value;
            id in chunks && chunks[id] == data <==> id.0 in vaults && ChunkRowOf(json, rows, id, data)
  {
    if rows != [] {
      var front, row := rows[..|rows| - 1], rows[|rows| - 1];
      assert rows == front + [row];
      forall id', d' ensures ChunkRowOf(json, front, id', d') ==> ChunkRowOf(json, rows, id', d') {
        ChunkRowsOfOneMore(json, front, row, id', d');
      }
      ChunksMean(json, vaults, front, id, data);
      ChunkRowsOfOneMore(json, front, row, id, data);
      var r := json.chunk(row).value;
      assert r.vaultId.value in vaults ==> ChunkRowOf(json, [row], (r.vaultId.value, r.attachmentId.value, Index(r.idx.value)), r.ciphertext.value);
      if r.vaultId.value in vaults && id == (r.vaultId.value, r.attachmentId.value, Index(r.idx.value)) {
        ChunkRowsOfOneMore(json, front, row, id, r.ciphertext.value);
      }
    }
  }

  // ---- from a dump ------------------------------------------------------------------------------

  lemma DumpsHaveParentsFirst(db: Db, pairs: seq<Pair>)
    requires InHeaderOrder(Dumped(db), pairs)
    ensures ParentsFirst(pairs)
  {
    assert TABLES[0] == USERS && TABLES[2] == MEMBERS && TABLES[3] == ITEMS && TABLES[6] == CHUNKS;
    WrittenBefore(db, pairs, 0, 2);
    WrittenBefore(db, pairs, 2, 3);
    WrittenBefore(db, pairs, 2, 6);
  }

  function TableRows(order: Order, db: Db, t: string): seq<string> { if t in db.tables then order(t, db.tables[t]) else [] }

  /** The account, its memberships and their contents, asked of the database. */
  function JoinDb(json: Json, email: string, order: Order, db: Db): Option<State> {
    Join(json, email, TableRows(order, db, USERS), TableRows(order, db, VAULTS), TableRows(order, db, MEMBERS),
         TableRows(order, db, ITEMS), TableRows(order, db, CHUNKS))
  }

  lemma {:induction false} DownToEnd(lib: Lib, lines: seq<Line>, i: nat)
    requires WellFormed(lib, lines) && 1 <= i < |lines|
    ensures ToEnd(lines[i..]) == Some(Pairs(lib, Middle(lines))[i - 1..])
    decreases |lines| - i
  {
    var pairs := Pairs(lib, Middle(lines));
    NextLine(lines, i, []);
    if i < |lines| - 1 {
      assert Middle(lines)[i - 1] == lines[i];
      DownToEnd(lib, lines, i + 1);
      assert pairs[i - 1..] == [pairs[i - 1]] + pairs[i..];
    } else {
      assert pairs[i - 1..] == [];
    }
  }

  lemma RowsOfEach(order: Order, db: Db, t: string)
    requires t in TABLES
    ensures RowsIn(Grouped(Dumped(db), Ordered(order, db)), t) == TableRows(order, db, t)
  {
    DumpedAreDistinct(db);
    GroupedRows(Dumped(db), Ordered(order, db), t);
  }

  lemma JoinOfDump(json: Json, email: string, order: Order, db: Db)
    ensures JoinOf(json, email, Grouped(Dumped(db), Ordered(order, db))) == JoinDb(json, email, order, db)
  {
    assert TABLES[0] == USERS && TABLES[1] == VAULTS && TABLES[2] == MEMBERS && TABLES[3] == ITEMS && TABLES[6] == CHUNKS;
    RowsOfEach(order, db, USERS);
    RowsOfEach(order, db, VAULTS);
    RowsOfEach(order, db, MEMBERS);
    RowsOfEach(order, db, ITEMS);
    RowsOfEach(order, db, CHUNKS);
  }

  /** Recovering from the dump of any database is asking that database. */
  lemma RecoveryIsTheJoin(lib: Lib, json: Json, unlock: Bytes -> bool, email: string, order: Order, db: Db, header: Header, lines: seq<Line>)
    requires RoundTrips(lib) && Canonical(order) && AllJson(lib, db) && IsDump(lib, order, db, header, lines)
    ensures Outcome(json, unlock, email, lines)
            == (var st := JoinDb(json, email, order, db);
                if st.None? || st.value.user.None? || !unlock(st.value.user.value.1) then None else Gather(st.value))
  {
    PartsOfDump(lib, order, db, header, lines);
    DumpIsAccepted(lib, order, db, header, lines);
    var pairs := Pairs(lib, Middle(lines));
    DownToEnd(lib, lines, 1);
    DumpsHaveParentsFirst(db, pairs);
    OnePassIsTheJoin(json, email, pairs);
    JoinOfDump(json, email, order, db);
    assert StartsLikeABackup(lines);
  }

  // ---- which rows of the database ---------------------------------------------------------------

  /** The rows of a table, in no order. */
  function DbRows(db: Db, t: string): Rows { if t in db.tables then db.tables[t] else [] }

  /** What the keys of the tables guarantee. */
  ghost predicate Keyed(json: Json, email: string, db: Db) {
    && OneAccount(json, email, DbRows(db, USERS))
    && OneVaultEach(json, DbRows(db, VAULTS))
    && (forall user :: OneKeyEach(json, user, DbRows(db, MEMBERS)))
    && OneDataEach(json, DbRows(db, CHUNKS))
  }

  ghost predicate IsMember(json: Json, db: Db, user: Uuid, v: Uuid) {
    exists key :: MemberRowOf(json, user, DbRows(db, MEMBERS), v, key)
  }

  function ReadsUser(json: Json, email: string): string -> bool {
    (row: string) => json.user(row).Some? && (json.user(row).value.email == Some(email) ==>
                                                json.user(row).value.id.Some? && json.user(row).value.wrapped.Some?)
  }

  function ReadsVault(json: Json): string -> bool {
    (row: string) => json.vault(row).Some? && json.vault(row).value.id.Some?
  }

  function ReadsMember(json: Json, user: Uuid): string -> bool {
    (row: string) => json.member(row).Some? && (json.member(row).value.userId == Some(user) ==>
                                                  json.member(row).value.vaultId.Some? && json.member(row).value.key.Some?)
  }

  ghost function ReadsItem(json: Json, mine: Uuid -> bool): string -> bool {
    (row: string) =>
      && json.item(row).Some? && json.item(row).value.vaultId.Some?
      && (mine(json.item(row).value.vaultId.value) ==> json.item(row).value.item.Some?)
  }

  ghost function ReadsChunk(json: Json, mine: Uuid -> bool): string -> bool {
    (row: string) =>
      && json.chunk(row).Some? && json.chunk(row).value.vaultId.Some?
      && (mine(json.chunk(row).value.vaultId.value) ==>
            json.chunk(row).value.attachmentId.Some? && json.chunk(row).value.idx.Some? && json.chunk(row).value.ciphertext.Some?)
  }

  ghost predicate EveryRow(rows: Rows, p: string -> bool) { forall row :: row in rows ==> p(row) }

  lemma EveryRowOrLast(rows: Rows, p: string -> bool)
    requires rows != []
    ensures EveryRow(rows, p) <==> EveryRow(rows[..|rows| - 1], p) && p(rows[|rows| - 1])
  {
    var front, last := rows[..|rows| - 1], rows[|rows| - 1];
    assert rows == front + [last];
    assert last in rows;
    assert forall row :: row in front ==> row in rows;
  }

  lemma {:induction false} UsersRead(json: Json, email: string, rows: Rows)
    ensures SelectUser(json, email, rows).Some? <==> EveryRow(rows, ReadsUser(json, email))
  {
    if rows != [] {
      UsersRead(json, email, rows[..|rows| - 1]);
      EveryRowOrLast(rows, ReadsUser(json, email));
    }
  }

  lemma {:induction false} VaultsRead(json: Json, rows: Rows)
    ensures SelectVaults(json, rows).Some? <==> EveryRow(rows, ReadsVault(json))
  {
    if rows != [] {
      VaultsRead(json, rows[..|rows| - 1]);
      EveryRowOrLast(rows, ReadsVault(json));
    }
  }

  lemma {:induction false} MembersRead(json: Json, user: (Uuid, Bytes), rows: Rows)
    ensures SelectMembers(json, Some(user), rows).Some? <==> EveryRow(rows, ReadsMember(json, user.0))
  {
    if rows != [] {
      MembersRead(json, user, rows[..|rows| - 1]);
      EveryRowOrLast(rows, ReadsMember(json, user.0));
    }
  }

  lemma {:induction false} ItemsRead(json: Json, vaults: set<Uuid>, mine: Uuid -> bool, rows: Rows)
    requires forall v :: v in vaults <==> mine(v)
    ensures SelectItems(json, vaults, rows).Some? <==> EveryRow(rows, ReadsItem(json, mine))
  {
    if rows != [] {
      ItemsRead(json, vaults, mine, rows[..|rows| - 1]);
      EveryRowOrLast(rows, ReadsItem(json, mine));
    }
  }

  lemma {:induction false} ChunksRead(json: Json, vaults: set<Uuid>, mine: Uuid -> bool, rows: Rows)
    requires forall v :: v in vaults <==> mine(v)
    ensures SelectChunks(json, vaults, rows).Some? <==> EveryRow(rows, ReadsChunk(json, mine))
  {
    if rows != [] {
      ChunksRead(json, vaults, mine, rows[..|rows| - 1]);
      EveryRowOrLast(rows, ReadsChunk(json, mine));
    }
  }

  ghost function Mine(json: Json, db: Db, user: Uuid): Uuid -> bool { (v: Uuid) => IsMember(json, db, user, v) }

  /** Every row that recovering account `id` has to read can be read. */
  ghost predicate Readable(json: Json, email: string, db: Db, id: Uuid) {
    && EveryRow(DbRows(db, USERS), ReadsUser(json, email))
    && EveryRow(DbRows(db, VAULTS), ReadsVault(json))
    && EveryRow(DbRows(db, MEMBERS), ReadsMember(json, id))
    && EveryRow(DbRows(db, ITEMS), ReadsItem(json, Mine(json, db, id)))
    && EveryRow(DbRows(db, CHUNKS), ReadsChunk(json, Mine(json, db, id)))
    && forall v :: VaultRowOf(json, DbRows(db, VAULTS), v, VaultRow(Some(v), None)) ==> !IsMember(json, db, id, v)
  }

  /** The items of vault `v`, all of them, in the order of the rows. */
  ghost predicate ItemsOf(json: Json, rows: Rows, v: Uuid, items: seq<Item>) {
    var own := Filter(rows, OfVault(json, v));
    |items| == |own| && forall i :: 0 <= i < |own| ==> json.item(own[i]) == Some(ItemRow(Some(v), Some(items[i])))
  }

  /** Vault `v` with this body and key: a membership of the account with that
      key, and a row of the vault with that body. */
  ghost predicate OwnVault(json: Json, db: Db, id: Uuid, v: Uuid, body: VaultBody, key: Bytes) {
    MemberRowOf(json, id, DbRows(db, MEMBERS), v, key) && VaultRowOf(json, DbRows(db, VAULTS), v, VaultRow(Some(v), Some(body)))
  }

  predicate HasVault(r: Recovered, v: Uuid, body: VaultBody, key: Bytes) {
    v in r.vaults && r.vaults[v].body == body && r.vaults[v].key == key
  }

  /** The vaults are those the account is a member of, each under the key of
      its membership. */
  ghost predicate OwnVaults(json: Json, db: Db, id: Uuid, r: Recovered) {
    forall v, body, key :: HasVault(r, v, body, key) <==> OwnVault(json, db, id, v, body, key)
  }

  ghost predicate OwnItems(json: Json, order: Order, db: Db, r: Recovered) {
    forall v :: v in r.vaults ==> ItemsOf(json, TableRows(order, db, ITEMS), v, r.vaults[v].items)
  }

  predicate HasChunk(chunks: map<ChunkId, Bytes>, c: ChunkId, data: Bytes) { c in chunks && chunks[c] == data }

  ghost predicate OwnChunk(json: Json, db: Db, id: Uuid, c: ChunkId, data: Bytes) {
    IsMember(json, db, id, c.0) && ChunkRowOf(json, DbRows(db, CHUNKS), c, data)
  }

  ghost predicate OwnChunks(json: Json, db: Db, id: Uuid, chunks: map<ChunkId, Bytes>) {
    forall c, data :: HasChunk(chunks, c, data) <==> OwnChunk(json, db, id, c, data)
  }

  /** What is recovered is account `id`: its vaults, with all their items and
      chunks, and nothing else. */
  ghost predicate IsAccount(json: Json, email: string, order: Order, db: Db, id: Uuid, r: Recovered) {
    && UserRowOf(json, email, DbRows(db, USERS), id, r.wrapped)
    && OwnVaults(json, db, id, r)
    && OwnItems(json, order, db, r)
    && OwnChunks(json, db, id, r.chunks)
  }

  lemma SameRows(order: Order, db: Db, t: string)
    requires Canonical(order)
    ensures forall row :: row in TableRows(order, db, t) <==> row in DbRows(db, t)
  {
    if t in db.tables {
      SameMembers(order(t, db.tables[t]), db.tables[t]);
    }
  }

  lemma EveryRowSame(order: Order, db: Db, t: string, p: string -> bool)
    requires Canonical(order)
    ensures EveryRow(TableRows(order, db, t), p) <==> EveryRow(DbRows(db, t), p)
  {
    SameRows(order, db, t);
  }

  lemma UserOfDb(json: Json, email: string, order: Order, db: Db, id: Uuid, wrapped: Bytes)
    requires Canonical(order) && Keyed(json, email, db) && SelectUser(json, email, TableRows(order, db, USERS)).Some?
    ensures SelectUser(json, email, TableRows(order, db, USERS)).value == Some((id, wrapped))
            <==> UserRowOf(json, email, DbRows(db, USERS), id, wrapped)
  {
    var rows := TableRows(order, db, USERS);
    SameRows(order, db, USERS);
    forall i, w ensures UserRowOf(json, email, rows, i, w) <==> UserRowOf(json, email, DbRows(db, USERS), i, w) {}
    UserMeans(json, email, rows, id, wrapped);
  }

  lemma VaultOfDb(json: Json, email: string, order: Order, db: Db, v: Uuid, vault: VaultRow)
    requires Canonical(order) && Keyed(json, email, db) && SelectVaults(json, TableRows(order, db, VAULTS)).Some?
    ensures var all := SelectVaults(json, TableRows(order, db, VAULTS)).value;
            v in all && all[v] == vault <==> VaultRowOf(json, DbRows(db, VAULTS), v, vault)
  {
    var rows := TableRows(order, db, VAULTS);
    SameRows(order, db, VAULTS);
    forall u, a ensures VaultRowOf(json, rows, u, a) <==> VaultRowOf(json, DbRows(db, VAULTS), u, a) {}
    VaultsMean(json, rows, v, vault);
  }

  lemma MemberOfDb(json: Json, email: string, order: Order, db: Db, user: (Uuid, Bytes), v: Uuid, key: Bytes)
    requires Canonical(order) && Keyed(json, email, db) && SelectMembers(json, Some(user), TableRows(order, db, MEMBERS)).Some?
    ensures var mine := SelectMembers(json, Some(user), TableRows(order, db, MEMBERS)).value;
            v in mine && mine[v] == key <==> MemberRowOf(json, user.0, DbRows(db, MEMBERS), v, key)
  {
    var rows := TableRows(order, db, MEMBERS);
    SameRows(order, db, MEMBERS);
    forall u, k ensures MemberRowOf(json, user.0, rows, u, k) <==> MemberRowOf(json, user.0, DbRows(db, MEMBERS), u, k) {}
    assert OneKeyEach(json, user.0, DbRows(db, MEMBERS));
    MembersMean(json, user, rows, v, key);
  }

  lemma MembersOfDb(json: Json, email: string, order: Order, db: Db, user: (Uuid, Bytes))
    requires Canonical(order) && Keyed(json, email, db) && SelectMembers(json, Some(user), TableRows(order, db, MEMBERS)).Some?
    ensures forall v :: v in SelectMembers(json, Some(user), TableRows(order, db, MEMBERS)).value <==> IsMember(json, db, user.0, v)
  {
    var mine := SelectMembers(json, Some(user), TableRows(order, db, MEMBERS)).value;
    forall v ensures v in mine <==> IsMember(json, db, user.0, v) {
      if v in mine {
        MemberOfDb(json, email, order, db, user, v, mine[v]);
      }
      if key :| MemberRowOf(json, user.0, DbRows(db, MEMBERS), v, key) {
        MemberOfDb(json, email, order, db, user, v, key);
      }
    }
  }

  lemma ChunkOfDb(json: Json, email: string, order: Order, db: Db, vaults: set<Uuid>, c: ChunkId, data: Bytes)
    requires Canonical(order) && Keyed(json, email, db) && SelectChunks(json, vaults, TableRows(order, db, CHUNKS)).Some?
    ensures var chunks := SelectChunks(json, vaults, TableRows(order, db, CHUNKS)).value;
            c in chunks && chunks[c] == data <==> c.0 in vaults && ChunkRowOf(json, DbRows(db, CHUNKS), c, data)
  {
    var rows := TableRows(order, db, CHUNKS);
    SameRows(order, db, CHUNKS);
    forall i, d ensures ChunkRowOf(json, rows, i, d) <==> ChunkRowOf(json, DbRows(db, CHUNKS), i, d) {}
    ChunksMean(json, vaults, rows, c, data);
  }

  lemma ItemsOfDb(json: Json, vaults: set<Uuid>, rows: Rows, st: State, v: Uuid)
    requires SelectItems(json, vaults, rows) == Some(st.items) && v in vaults
    ensures ItemsOf(json, rows, v, ItemsIn(st, v))
  {
    ItemsMean(json, vaults, rows, v);
  }

  lemma GatheredVault(json: Json, email: string, order: Order, db: Db, st: State, r: Recovered, v: Uuid, body: VaultBody, key: Bytes)
    requires Canonical(order) && Keyed(json, email, db) && JoinDb(json, email, order, db) == Some(st)
    requires st.user.Some? && Gather(st) == Some(r)
    ensures HasVault(r, v, body, key) <==> OwnVault(json, db, st.user.value.0, v, body, key)
  {
    MemberOfDb(json, email, order, db, st.user.value, v, key);
    VaultOfDb(json, email, order, db, v, VaultRow(Some(v), Some(body)));
    if v in st.vaults {
      VaultOfDb(json, email, order, db, v, st.vaults[v]);
    }
  }

  lemma GatheredVaults(json: Json, email: string, order: Order, db: Db, st: State, r: Recovered)
    requires Canonical(order) && Keyed(json, email, db) && JoinDb(json, email, order, db) == Some(st)
    requires st.user.Some? && Gather(st) == Some(r)
    ensures OwnVaults(json, db, st.user.value.0, r)
  {
    forall v, body, key ensures HasVault(r, v, body, key) <==> OwnVault(json, db, st.user.value.0, v, body, key) {
      GatheredVault(json, email, order, db, st, r, v, body, key);
    }
  }

  lemma GatheredItems(json: Json, email: string, order: Order, db: Db, st: State, r: Recovered)
    requires JoinDb(json, email, order, db) == Some(st) && st.user.Some? && Gather(st) == Some(r)
    ensures OwnItems(json, order, db, r)
  {
    forall v | v in r.vaults ensures ItemsOf(json, TableRows(order, db, ITEMS), v, r.vaults[v].items) {
      ItemsOfDb(json, st.members.Keys, TableRows(order, db, ITEMS), st, v);
    }
  }

  lemma GatheredChunk(json: Json, email: string, order: Order, db: Db, st: State, c: ChunkId, data: Bytes)
    requires Canonical(order) && Keyed(json, email, db) && JoinDb(json, email, order, db) == Some(st) && st.user.Some?
    ensures HasChunk(st.chunks, c, data) <==> OwnChunk(json, db, st.user.value.0, c, data)
  {
    MembersOfDb(json, email, order, db, st.user.value);
    assert c.0 in st.members <==> IsMember(json, db, st.user.value.0, c.0);
    ChunkOfDb(json, email, order, db, st.members.Keys, c, data);
  }

  lemma GatheredChunks(json: Json, email: string, order: Order, db: Db, st: State)
    requires Canonical(order) && Keyed(json, email, db) && JoinDb(json, email, order, db) == Some(st) && st.user.Some?
    ensures OwnChunks(json, db, st.user.value.0, st.chunks)
  {
    forall c, data ensures HasChunk(st.chunks, c, data) <==> OwnChunk(json, db, st.user.value.0, c, data) {
      GatheredChunk(json, email, order, db, st, c, data);
    }
  }

  lemma GatheredIsAccount(json: Json, email: string, order: Order, db: Db, st: State, r: Recovered)
    requires Canonical(order) && Keyed(json, email, db) && JoinDb(json, email, order, db) == Some(st)
    requires st.user.Some? && Gather(st) == Some(r)
    ensures IsAccount(json, email, order, db, st.user.value.0, r)
  {
    UserOfDb(json, email, order, db, st.user.value.0, r.wrapped);
    GatheredVaults(json, email, order, db, st, r);
    GatheredItems(json, email, order, db, st, r);
    GatheredChunks(json, email, order, db, st);
  }

  /** Whether the join can be made and gathered. */
  predicate Gathers(st: Option<State>, user: (Uuid, Bytes)) {
    st.Some? && st.value.user == Some(user) && Gather(st.value).Some?
  }

  lemma TablesRead(json: Json, email: string, order: Order, db: Db, user: (Uuid, Bytes))
    requires Canonical(order)
    ensures SelectUser(json, email, TableRows(order, db, USERS)).Some? <==> EveryRow(DbRows(db, USERS), ReadsUser(json, email))
    ensures SelectVaults(json, TableRows(order, db, VAULTS)).Some? <==> EveryRow(DbRows(db, VAULTS), ReadsVault(json))
    ensures SelectMembers(json, Some(user), TableRows(order, db, MEMBERS)).Some?
            <==> EveryRow(DbRows(db, MEMBERS), ReadsMember(json, user.0))
  {
    UsersRead(json, email, TableRows(order, db, USERS));
    EveryRowSame(order, db, USERS, ReadsUser(json, email));
    VaultsRead(json, TableRows(order, db, VAULTS));
    EveryRowSame(order, db, VAULTS, ReadsVault(json));
    MembersRead(json, user, TableRows(order, db, MEMBERS));
    EveryRowSame(order, db, MEMBERS, ReadsMember(json, user.0));
  }

  lemma ContentsRead(json: Json, order: Order, db: Db, vaults: set<Uuid>, mine: Uuid -> bool)
    requires Canonical(order) && forall v :: v in vaults <==> mine(v)
    ensures SelectItems(json, vaults, TableRows(order, db, ITEMS)).Some? <==> EveryRow(DbRows(db, ITEMS), ReadsItem(json, mine))
    ensures SelectChunks(json, vaults, TableRows(order, db, CHUNKS)).Some? <==> EveryRow(DbRows(db, CHUNKS), ReadsChunk(json, mine))
  {
    ItemsRead(json, vaults, mine, TableRows(order, db, ITEMS));
    EveryRowSame(order, db, ITEMS, ReadsItem(json, mine));
    ChunksRead(json, vaults, mine, TableRows(order, db, CHUNKS));
    EveryRowSame(order, db, CHUNKS, ReadsChunk(json, mine));
  }

  ghost predicate SomeBodyUnread(mine: map<Uuid, Bytes>, all: map<Uuid, VaultRow>) {
    exists v :: v in mine.Keys * all.Keys && all[v].body.None?
  }

  lemma JoinGathers(json: Json, email: string, users: Rows, vaults: Rows, members: Rows, items: Rows, chunks: Rows, user: (Uuid, Bytes))
    ensures var all, mine := SelectVaults(json, vaults), SelectMembers(json, Some(user), members);
            Gathers(Join(json, email, users, vaults, members, items, chunks), user)
            <==> SelectUser(json, email, users) == Some(Some(user)) && all.Some? && mine.Some?
                 && SelectItems(json, mine.value.Keys, items).Some? && SelectChunks(json, mine.value.Keys, chunks).Some?
                 && !SomeBodyUnread(mine.value, all.value)
  {}

  lemma GathersExactly(json: Json, email: string, order: Order, db: Db, user: (Uuid, Bytes))
    requires Canonical(order) && Keyed(json, email, db) && UserRowOf(json, email, DbRows(db, USERS), user.0, user.1)
    ensures Gathers(JoinDb(json, email, order, db), user) <==> Readable(json, email, db, user.0)
  {
    var users, all := SelectUser(json, email, TableRows(order, db, USERS)), SelectVaults(json, TableRows(order, db, VAULTS));
    var mine := SelectMembers(json, Some(user), TableRows(order, db, MEMBERS));
    JoinGathers(json, email, TableRows(order, db, USERS), TableRows(order, db, VAULTS), TableRows(order, db, MEMBERS),
                TableRows(order, db, ITEMS), TableRows(order, db, CHUNKS), user);
    TablesRead(json, email, order, db, user);
    if users.Some? {
      UserOfDb(json, email, order, db, user.0, user.1);
    }
    if mine.Some? && all.Some? {
      MembersOfDb(json, email, order, db, user);
      ContentsRead(json, order, db, mine.value.Keys, Mine(json, db, user.0));
      NoBody(json, email, order, db, user, all.value, mine.value);
    }
  }

  lemma NoBody(json: Json, email: string, order: Order, db: Db, user: (Uuid, Bytes), all: map<Uuid, VaultRow>, mine: map<Uuid, Bytes>)
    requires Canonical(order) && Keyed(json, email, db) && SelectVaults(json, TableRows(order, db, VAULTS)) == Some(all)
    requires forall v :: v in mine <==> IsMember(json, db, user.0, v)
    ensures SomeBodyUnread(mine, all)
            <==> exists v :: VaultRowOf(json, DbRows(db, VAULTS), v, VaultRow(Some(v), None)) && IsMember(json, db, user.0, v)
  {
    forall v ensures v in all && all[v].body.None? <==> VaultRowOf(json, DbRows(db, VAULTS), v, VaultRow(Some(v), None)) {
      VaultOfDb(json, email, order, db, v, VaultRow(Some(v), None));
      if v in all {
        VaultOfDb(json, email, order, db, v, all[v]);
      }
    }
  }

  /** Recovering from the dump of any database succeeds exactly when the address
      is that of an account, the password opens its key, and what concerns it
      can be read; then what is recovered is that account. */
  lemma RecoveryIsTheAccount(lib: Lib, json: Json, unlock: Bytes -> bool, email: string, order: Order, db: Db, header: Header,
                             lines: seq<Line>)
    requires RoundTrips(lib) && Canonical(order) && AllJson(lib, db) && IsDump(lib, order, db, header, lines)
    requires Keyed(json, email, db)
    ensures var r := Outcome(json, unlock, email, lines);
            && (r.Some? <==> exists id, wrapped :: UserRowOf(json, email, DbRows(db, USERS), id, wrapped) && unlock(wrapped)
                                                  && Readable(json, email, db, id))
            && (r.Some? ==> exists id :: IsAccount(json, email, order, db, id, r.value))
  {
    var st, r := JoinDb(json, email, order, db), Outcome(json, unlock, email, lines);
    RecoveryIsTheJoin(lib, json, unlock, email, order, db, header, lines);
    if r.Some? {
      var user := st.value.user.value;
      GatheredIsAccount(json, email, order, db, st.value, r.value);
      GathersExactly(json, email, order, db, user);
    }
    if id, wrapped :| UserRowOf(json, email, DbRows(db, USERS), id, wrapped) && unlock(wrapped) && Readable(json, email, db, id) {
      GathersExactly(json, email, order, db, (id, wrapped));
    }
  }

  // ---- the files --------------------------------------------------------------------------------

  /** The rows of an attachment hold these chunks, under 0, 1 and so on. */
  ghost predicate ChunkRows(json: Json, rows: Rows, v: Uuid, a: Uuid, chunks: seq<Bytes>) {
    forall k :: 0 <= k < |chunks| ==> ChunkRowAt(json, rows, v, a, k, chunks[k])
  }

  ghost predicate ChunkRowAt(json: Json, rows: Rows, v: Uuid, a: Uuid, k: int, data: Bytes) {
    exists row :: row in rows && json.chunk(row) == Some(ChunkRow(Some(v), Some(a), Some(k), Some(data)))
  }

  /** The chunks of an attachment of the account are recovered in their place. */
  lemma ChunksInPlace(json: Json, email: string, order: Order, db: Db, id: Uuid, r: Recovered, v: Uuid, a: Uuid, chunks: seq<Bytes>)
    requires IsAccount(json, email, order, db, id, r) && IsMember(json, db, id, v)
    requires |chunks| < 0x1_0000_0000 && ChunkRows(json, DbRows(db, CHUNKS), v, a, chunks)
    ensures forall k: nat :: k < |chunks| ==> (v, a, k) in r.chunks && r.chunks[(v, a, k)] == chunks[k]
  {
    forall k: nat | k < |chunks| ensures HasChunk(r.chunks, (v, a, k), chunks[k]) {
      assert ChunkRowAt(json, DbRows(db, CHUNKS), v, a, k, chunks[k]);
      var row :| row in DbRows(db, CHUNKS) && json.chunk(row) == Some(ChunkRow(Some(v), Some(a), Some(k), Some(chunks[k])));
      assert ChunkRowOf(json, DbRows(db, CHUNKS), (v, a, k), chunks[k]);
      assert OwnChunk(json, db, id, (v, a, k), chunks[k]);
    }
  }

  /** A file of the account, sealed and stored by chunks, opens as itself from
      what was recovered. */
  lemma FileIsRecovered(json: Json, email: string, order: Order, db: Db, id: Uuid, r: Recovered, v: Uuid, a: Uuid, chunks: seq<Bytes>,
                        blob: Bytes -> Blob, key: Key, data: seq<byte>, nonce: nat -> nat)
    requires IsAccount(json, email, order, db, id, r) && IsMember(json, db, id, v)
    requires ChunkRows(json, DbRows(db, CHUNKS), v, a, chunks) && |data| <= Attachments.LIMIT
    requires Map(chunks, blob) == Attachments.SealAttachment(key, UuidText(a), data, nonce)
    ensures forall k: nat :: k < |chunks| ==> (v, a, k) in r.chunks
    ensures var found := seq(|chunks|, k requires 0 <= k < |chunks| && (v, a, k) in r.chunks => blob(r.chunks[(v, a, k)]));
            Attachments.Opened(key, UuidText(a), found) == Ok(data)
  {
    ChunksInPlace(json, email, order, db, id, r, v, a, chunks);
    var found := seq(|chunks|, k requires 0 <= k < |chunks| && (v, a, k) in r.chunks => blob(r.chunks[(v, a, k)]));
    assert found == Map(chunks, blob);
    Attachments.RoundTrip(key, UuidText(a), data, nonce);
  }
}
