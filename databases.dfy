/**
 * The `games.db` tables the bot's handlers read and write, held in memory.
 *
 * Each table is a sequence of rows in rowid order (the order SQLite returns
 * them when a query has no ORDER BY). The generic helpers of `Database`
 * (`insert_into_db`, `update_field`, `delete_from_db`, `fetch_one_as_dict`,
 * `fetch_all_as_dict_arr`, `entry_exists`) become methods and functions of one
 * class; a SQL `WHERE` clause becomes a predicate over rows. The typed helpers
 * built on them (asset requests, games, contributors) follow.
 */
module Databases {
  import opened Wrappers

  /** A column value as Python gets it back from SQLite: `None`, an integer or a text. */
  datatype Value = Null | Int(i: int) | Text(s: string)

  /** One row: its integer primary key `id` and one value per other column of the schema. */
  datatype Row = Row(id: int, cols: map<string, Value>)

  /** The tables of `games.db` that the handlers use. */
  datatype Table = Games | Contributors | AssetRequests

  /** The schema's columns other than `id`. */
  function Columns(t: Table): set<string> {
    match t
    case Games => {"name", "repo_name", "channel_id", "owner", "owner_display_name", "itch_io_link"}
    case Contributors => {"discord_username", "discord_display_name", "credit_name", "itch_io_link", "alt_link"}
    case AssetRequests => {"game_id", "asset_type", "content", "context", "requested_by", "accepted_by", "status"}
  }

  /** The columns declared NOT NULL. */
  function NotNullColumns(t: Table): (r: set<string>)
    ensures r <= Columns(t)
  {
    match t
    case Games => {}
    case Contributors => {"discord_username", "credit_name"}
    case AssetRequests => {"game_id", "asset_type", "content", "requested_by", "status"}
  }

  /** `row[name]` as the dict built from a row has it (`id` included). */
  function Field(r: Row, name: string): Value {
    if name == "id" then Int(r.id) else if name in r.cols then r.cols[name] else Null
  }

  /** SQL `name = ?` with parameter `v`: a comparison with NULL is never true. */
  predicate FieldIs(r: Row, name: string, v: Value) {
    v != Null && Field(r, name) == v
  }

  /** A row holds exactly the schema's columns, and no NOT NULL column is NULL. */
  predicate RowFits(t: Table, r: Row) {
    && r.cols.Keys == Columns(t)
    && forall c :: c in NotNullColumns(t) ==> r.cols[c] != Null
  }

  /** Row ids strictly increase along the table, so they are distinct. */
  predicate IdsIncrease(rows: seq<Row>) {
    forall i, j :: 0 <= i < j < |rows| ==> rows[i].id < rows[j].id
  }

  /** What SQLite keeps true of a table: well-formed rows, distinct positive ids below the next one. */
  predicate TableOk(t: Table, rows: seq<Row>, nextId: int) {
    && IdsIncrease(rows)
    && forall k :: 0 <= k < |rows| ==> RowFits(t, rows[k]) && 1 <= rows[k].id < nextId
  }

  // ---------------------------------------------------------------------------
  // Queries over a row sequence
  // ---------------------------------------------------------------------------

  /** `SELECT * ... WHERE p`: the rows satisfying `p`, in table order. */
  function Select(rows: seq<Row>, p: Row -> bool): (r: seq<Row>)
    ensures |r| <= |rows|
    ensures forall x :: x in r <==> x in rows && p(x)
    decreases |rows|
  {
    if |rows| == 0 then []
    else if p(rows[0]) then [rows[0]] + Select(rows[1..], p)
    else Select(rows[1..], p)
  }

  /** A selection from a table with increasing ids has increasing ids too. */
  lemma {:induction false} SelectIdsIncrease(rows: seq<Row>, p: Row -> bool)
    requires IdsIncrease(rows)
    ensures IdsIncrease(Select(rows, p))
    decreases |rows|
  {
    if |rows| > 0 {
      var rest := Select(rows[1..], p);
      SelectIdsIncrease(rows[1..], p);
      if p(rows[0]) {
        forall k | 0 <= k < |rest| ensures rows[0].id < rest[k].id {
          assert rest[k] in rows[1..];
        }
      }
    }
  }

  /** `SELECT * ... WHERE p LIMIT 1`: the first row satisfying `p`, if any. */
  function First(rows: seq<Row>, p: Row -> bool): (r: Option<Row>)
    ensures r.None? <==> forall k :: 0 <= k < |rows| ==> !p(rows[k])
    ensures r.Some? ==> exists k :: 0 <= k < |rows| && rows[k] == r.value && p(r.value)
                                    && forall m :: 0 <= m < k ==> !p(rows[m])
    decreases |rows|
  {
    if |rows| == 0 then None
    else if p(rows[0]) then Some(rows[0])
    else
      var r := First(rows[1..], p);
      if r.Some? then
        var k :| 0 <= k < |rows[1..]| && rows[1..][k] == r.value && p(r.value)
                 && forall m :: 0 <= m < k ==> !p(rows[1..][m]);
        assert rows[k + 1] == r.value;
        r
      else r
  }

  /** `SELECT * ... WHERE field = ? LIMIT 1`: the first row whose `field` equals `v`, if any. */
  function FirstWhere(rows: seq<Row>, field: string, v: Value): (r: Option<Row>)
    ensures r.None? <==> forall k :: 0 <= k < |rows| ==> !FieldIs(rows[k], field, v)
    ensures r.Some? ==> r.value in rows && FieldIs(r.value, field, v)
    decreases |rows|
  {
    if |rows| == 0 then None
    else if FieldIs(rows[0], field, v) then Some(rows[0])
    else FirstWhere(rows[1..], field, v)
  }

  /** The field lookup is the general `First` with the test `field = v`: the earliest match. */
  lemma {:induction false} FirstWhereIsFirst(rows: seq<Row>, field: string, v: Value)
    ensures FirstWhere(rows, field, v) == First(rows, (x: Row) => FieldIs(x, field, v))
    decreases |rows|
  {
    if |rows| > 0 {
      FirstWhereIsFirst(rows[1..], field, v);
    }
  }

  /** `UPDATE ... SET field = v WHERE id = rowId` on a row sequence. */
  function SetWhereId(rows: seq<Row>, rowId: int, field: string, v: Value): (r: seq<Row>)
    ensures |r| == |rows|
    ensures forall k :: 0 <= k < |rows| ==> r[k].id == rows[k].id
    ensures forall k :: 0 <= k < |rows| && rows[k].id == rowId ==> r[k].cols == rows[k].cols[field := v]
    ensures forall k :: 0 <= k < |rows| && rows[k].id != rowId ==> r[k] == rows[k]
  {
    seq(|rows|, k requires 0 <= k < |rows| =>
      if rows[k].id == rowId then Row(rows[k].id, rows[k].cols[field := v]) else rows[k])
  }

  /** An update aimed at an id that no row carries leaves the table as it was. */
  lemma UpdateMissingIdChangesNothing(rows: seq<Row>, rowId: int, field: string, v: Value)
    requires forall k :: 0 <= k < |rows| ==> rows[k].id != rowId
    ensures SetWhereId(rows, rowId, field, v) == rows
  {
  }

  /** A selection from a well-formed table is a well-formed table under the same id bound. */
  lemma SelectKeepsTableOk(t: Table, rows: seq<Row>, nextId: int, p: Row -> bool)
    requires TableOk(t, rows, nextId)
    ensures TableOk(t, Select(rows, p), nextId)
  {
    SelectIdsIncrease(rows, p);
    var r := Select(rows, p);
    forall k | 0 <= k < |r| ensures RowFits(t, r[k]) && 1 <= r[k].id < nextId {
      assert r[k] in rows;
    }
  }

  /** A table with increasing ids stays well-formed when the bound is its last id plus one. */
  lemma LastIdBound(t: Table, rows: seq<Row>, nextId: int)
    requires TableOk(t, rows, nextId) && |rows| > 0
    ensures TableOk(t, rows, rows[|rows| - 1].id + 1)
  {
  }

  /** The id the next insert into `t` receives, given its rows and its AUTOINCREMENT counter. */
  function NextIdOf(t: Table, rows: seq<Row>, counter: nat): int {
    if t == Games then (if |rows| == 0 then 1 else rows[|rows| - 1].id + 1) else counter + 1
  }

  /** Appending a fitting row whose id is the bound keeps the table well-formed under the next bound. */
  lemma AppendKeepsTableOk(t: Table, rows: seq<Row>, nextId: int, row: Row)
    requires TableOk(t, rows, nextId) && RowFits(t, row) && row.id == nextId >= 1
    ensures TableOk(t, rows + [row], nextId + 1)
  {
  }

  /** An insert with the next id keeps the table well-formed, and the id after it is one more. */
  lemma InsertKeepsTableOk(t: Table, rows: seq<Row>, counter: nat, row: Row)
    requires TableOk(t, rows, NextIdOf(t, rows, counter))
    requires RowFits(t, row) && row.id == NextIdOf(t, rows, counter)
    ensures row.id >= 1
    ensures NextIdOf(t, rows + [row], if t == Games then 0 else row.id) == row.id + 1
    ensures TableOk(t, rows + [row], NextIdOf(t, rows + [row], if t == Games then 0 else row.id))
  {
    if t == Games && |rows| > 0 {
      assert rows[|rows| - 1].id >= 1;
    }
    AppendKeepsTableOk(t, rows, row.id, row);
  }

  /** A field update keeps the ids, hence the id the next insert receives. */
  lemma UpdateKeepsNextId(t: Table, rows: seq<Row>, counter: nat, rowId: int, field: string, v: Value)
    ensures NextIdOf(t, SetWhereId(rows, rowId, field, v), counter) == NextIdOf(t, rows, counter)
  {
  }

  /** A field update that keeps NOT NULL columns non-NULL keeps the table well-formed. */
  lemma SetWhereIdKeepsTableOk(t: Table, rows: seq<Row>, nextId: int, rowId: int, field: string, v: Value)
    requires TableOk(t, rows, nextId) && field in Columns(t)
    requires v == Null && field in NotNullColumns(t) ==> forall k :: 0 <= k < |rows| ==> rows[k].id != rowId
    ensures TableOk(t, SetWhereId(rows, rowId, field, v), nextId)
  {
    var r := SetWhereId(rows, rowId, field, v);
    forall k | 0 <= k < |r| ensures RowFits(t, r[k]) {
      assert RowFits(t, rows[k]);
    }
  }

  /** The row a successful insert appends: the given columns, NULL for the rest. */
  function NewCols(t: Table, columns: map<string, Value>): (cols: map<string, Value>)
    ensures cols.Keys == Columns(t)
    ensures forall c :: c in columns && c in Columns(t) ==> cols[c] == columns[c]
    ensures forall c :: c in Columns(t) && c !in columns ==> cols[c] == Null
  {
    map c | c in Columns(t) :: if c in columns then columns[c] else Null
  }

  /** Whether an insert with these columns meets every NOT NULL constraint (otherwise sqlite3 raises IntegrityError). */
  predicate MeetsNotNull(t: Table, columns: map<string, Value>) {
    forall c :: c in NotNullColumns(t) ==> c in columns && columns[c] != Null
  }

  /** Number of rows of `rows` whose column `field` equals `v`. */
  function CountWhere(rows: seq<Row>, field: string, v: Value): (n: nat)
    ensures n <= |rows|
    ensures n == 0 <==> forall k :: 0 <= k < |rows| ==> !FieldIs(rows[k], field, v)
    decreases |rows|
  {
    if |rows| == 0 then 0
    else (if FieldIs(rows[0], field, v) then 1 else 0) + CountWhere(rows[1..], field, v)
  }

  lemma {:induction false} CountWhereAppend(rows: seq<Row>, x: Row, field: string, v: Value)
    ensures CountWhere(rows + [x], field, v) == CountWhere(rows, field, v) + (if FieldIs(x, field, v) then 1 else 0)
    decreases |rows|
  {
    if |rows| > 0 {
      assert (rows + [x])[1..] == rows[1..] + [x];
      CountWhereAppend(rows[1..], x, field, v);
    }
  }

  // ---------------------------------------------------------------------------
  // Game lookups: static queries on the games table
  // ---------------------------------------------------------------------------

  /** `get_game_info(channel_id)`: the first game row whose `channel_id` equals the argument. */
  function GetGameInfo(games: seq<Row>, channelId: Value): (r: Option<Row>)
    ensures r.None? <==> forall k :: 0 <= k < |games| ==> !FieldIs(games[k], "channel_id", channelId)
    ensures r.Some? ==> r.value in games && FieldIs(r.value, "channel_id", channelId)
  {
    FirstWhere(games, "channel_id", channelId)
  }

  /** `get_default_game_info()`: the game row with id 1 (used in the test environment). */
  function GetDefaultGameInfo(games: seq<Row>): (r: Option<Row>)
    ensures r.None? <==> forall k :: 0 <= k < |games| ==> games[k].id != 1
    ensures r.Some? ==> r.value in games && r.value.id == 1
  {
    FirstWhere(games, "id", Int(1))
  }

  /** `get_game_channel(game_id)`: the `channel_id` of the first game with that id, `None` when there is none. */
  function GetGameChannel(games: seq<Row>, gameId: Value): (r: Value)
    ensures (forall k :: 0 <= k < |games| ==> !FieldIs(games[k], "id", gameId)) ==> r == Null
    ensures (exists k :: 0 <= k < |games| && FieldIs(games[k], "id", gameId)) ==>
      exists k :: 0 <= k < |games| && FieldIs(games[k], "id", gameId) && r == Field(games[k], "channel_id")
                  && forall m :: 0 <= m < k ==> !FieldIs(games[m], "id", gameId)
    ensures r != Null ==> exists k :: 0 <= k < |games| && FieldIs(games[k], "id", gameId) && r == Field(games[k], "channel_id")
  {
    FirstWhereIsFirst(games, "id", gameId);
    var g := FirstWhere(games, "id", gameId);
    if g.Some? then Field(g.value, "channel_id") else Null
  }

  // ---------------------------------------------------------------------------
  // The database
  // ---------------------------------------------------------------------------

  class Database {
    var games: seq<Row>
    var contributors: seq<Row>
    var assetRequests: seq<Row>
    /** `sqlite_sequence` of the two AUTOINCREMENT tables: the largest id ever handed out. */
    var contributorsSeq: nat
    var assetRequestsSeq: nat

    function Rows(t: Table): seq<Row>
      reads this
    {
      match t
      case Games => games
      case Contributors => contributors
      case AssetRequests => assetRequests
    }

    /** The AUTOINCREMENT counter of a table (`games` has none). */
    function Counter(t: Table): nat
      reads this
    {
      match t
      case Games => 0
      case Contributors => contributorsSeq
      case AssetRequests => assetRequestsSeq
    }

    /**
     * The id the next insert receives: `games.id` is a plain INTEGER PRIMARY KEY
     * (largest id present plus one, 1 in an empty table); the other two tables
     * are AUTOINCREMENT (never reuse an id, even a deleted one).
     */
    function NextId(t: Table): int
      reads this
    {
      NextIdOf(t, Rows(t), Counter(t))
    }

    /** Every table is well-formed under the id its next insert receives. */
    ghost predicate Valid()
      reads this
    {
      && TableOk(Games, games, NextIdOf(Games, games, 0))
      && TableOk(Contributors, contributors, NextIdOf(Contributors, contributors, contributorsSeq))
      && TableOk(AssetRequests, assetRequests, NextIdOf(AssetRequests, assetRequests, assetRequestsSeq))
    }

    lemma ValidTable(t: Table)
      requires Valid()
      ensures TableOk(t, Rows(t), NextId(t))
    {
    }

    constructor ()
      ensures Valid()
      ensures Rows(Games) == [] && Rows(Contributors) == [] && Rows(AssetRequests) == []
    {
      games, contributors, assetRequests := [], [], [];
      contributorsSeq, assetRequestsSeq := 0, 0;
    }

    /**
     * Stores one table's new rows and counter, provided they are well-formed;
     * the other tables and counters are kept.
     */
    method Store(t: Table, rows: seq<Row>, counter: nat)
      requires Valid()
      requires TableOk(t, rows, NextIdOf(t, rows, counter))
      modifies this
      ensures Valid()
      ensures Rows(t) == rows && (t != Games ==> Counter(t) == counter)
      ensures forall u :: u != t ==> Rows(u) == old(Rows(u)) && Counter(u) == old(Counter(u))
    {
      match t
      case Games => games := rows;
      case Contributors => contributors, contributorsSeq := rows, counter;
      case AssetRequests => assetRequests, assetRequestsSeq := rows, counter;
    }

    // --- Generic helpers -------------------------------------------------------

    /**
     * `insert_into_db(table, **columns)`: appends one row with the next id and
     * returns true, or, when a NOT NULL column would be NULL (sqlite3's
     * IntegrityError, caught), changes nothing and returns false.
     */
    method InsertInto(t: Table, columns: map<string, Value>) returns (ok: bool)
      requires Valid()
      requires columns.Keys <= Columns(t)
      modifies this
      ensures Valid()
      ensures ok == MeetsNotNull(t, columns)
      ensures ok ==> Rows(t) == old(Rows(t)) + [Row(old(NextId(t)), NewCols(t, columns))]
      ensures !ok ==> Rows(t) == old(Rows(t)) && NextId(t) == old(NextId(t))
      ensures forall u :: u != t ==> Rows(u) == old(Rows(u)) && NextId(u) == old(NextId(u))
    {
      ok := MeetsNotNull(t, columns);
      if !ok {
        return;
      }
      var row := Row(NextId(t), NewCols(t, columns));
      ValidTable(t);
      InsertKeepsTableOk(t, Rows(t), Counter(t), row);
      Store(t, Rows(t) + [row], if t == Games then 0 else row.id);
    }

    /**
     * `update_field(table, row_id, field, value)`: sets one column of the row
     * with that id. Setting a NOT NULL column to NULL on an existing row makes
     * SQLite raise IntegrityError, which `update_field` does not catch: the model
     * returns `ok == false` and leaves the table unchanged.
     */
    method UpdateField(t: Table, rowId: int, field: string, v: Value) returns (ok: bool)
      requires Valid()
      requires field in Columns(t)
      modifies this
      ensures Valid()
      ensures ok <==> !(v == Null && field in NotNullColumns(t) && exists k :: 0 <= k < |old(Rows(t))| && old(Rows(t))[k].id == rowId)
      ensures ok ==> Rows(t) == SetWhereId(old(Rows(t)), rowId, field, v)
      ensures !ok ==> Rows(t) == old(Rows(t))
      ensures forall u :: u != t ==> Rows(u) == old(Rows(u))
      ensures forall u :: NextId(u) == old(NextId(u))
    {
      ok := !(v == Null && field in NotNullColumns(t) && exists k :: 0 <= k < |Rows(t)| && Rows(t)[k].id == rowId);
      if !ok {
        return;
      }
      ValidTable(t);
      SetWhereIdKeepsTableOk(t, Rows(t), NextId(t), rowId, field, v);
      UpdateKeepsNextId(t, Rows(t), Counter(t), rowId, field, v);
      Store(t, SetWhereId(Rows(t), rowId, field, v), Counter(t));
    }

    /** `delete_from_db(table, where)`: removes every row satisfying `p`, keeps the others in order. */
    method DeleteWhere(t: Table, p: Row -> bool)
      requires Valid()
      modifies this
      ensures Valid()
      ensures Rows(t) == Select(old(Rows(t)), (r: Row) => !p(r))
      ensures forall u :: u != t ==> Rows(u) == old(Rows(u)) && NextId(u) == old(NextId(u))
      ensures t != Games ==> NextId(t) == old(NextId(t))
    {
      var kept := Select(Rows(t), (r: Row) => !p(r));
      ValidTable(t);
      SelectKeepsTableOk(t, Rows(t), NextId(t), (r: Row) => !p(r));
      if t == Games && |kept| > 0 {
        LastIdBound(t, kept, NextId(t));
      }
      Store(t, kept, Counter(t));
    }

    /** `fetch_one_as_dict(table, where)`: the first row satisfying `p`, or `None`. */
    function FetchOne(t: Table, p: Row -> bool): (r: Option<Row>)
      reads this
      ensures r.None? <==> forall k :: 0 <= k < |Rows(t)| ==> !p(Rows(t)[k])
      ensures r.Some? ==> exists k :: 0 <= k < |Rows(t)| && Rows(t)[k] == r.value && p(r.value)
                                      && forall m :: 0 <= m < k ==> !p(Rows(t)[m])
    {
      First(Rows(t), p)
    }

    /** `fetch_all_as_dict_arr(table, where)`: every row satisfying `p`, in table order. */
    function FetchAll(t: Table, p: Row -> bool): (r: seq<Row>)
      reads this
      ensures |r| <= |Rows(t)|
      ensures forall x :: x in r <==> x in Rows(t) && p(x)
    {
      Select(Rows(t), p)
    }

    /** `entry_exists(table, field, value)`: some row's `field` equals `value` (never for NULL). */
    function EntryExists(t: Table, field: string, v: Value): (r: bool)
      reads this
      ensures r <==> exists k :: 0 <= k < |Rows(t)| && FieldIs(Rows(t)[k], field, v)
      ensures v == Null ==> !r
    {
      FetchOne(t, (x: Row) => FieldIs(x, field, v)).Some?
    }

    // --- Games -------------------------------------------------------------------

    /** `add_game(name, repo_name, channel_id, owner)`: stores the owner's user name and display name. */
    method AddGame(name: string, repoName: string, channelId: int, ownerName: string, ownerDisplayName: string)
      requires Valid()
      modifies this
      ensures Valid()
      ensures Rows(Games) == old(Rows(Games)) + [Row(old(NextId(Games)), GameCols(name, repoName, channelId, ownerName, ownerDisplayName))]
      ensures forall u :: u != Games ==> Rows(u) == old(Rows(u)) && NextId(u) == old(NextId(u))
    {
      GameInsertFills(name, repoName, channelId, ownerName, ownerDisplayName);
      var ok := InsertInto(Games, GameInsertCols(name, repoName, channelId, ownerName, ownerDisplayName));
    }

    // --- Contributors ------------------------------------------------------------

    /** `register_contributor(...)`: one contributors row; `None` arguments are stored as NULL. */
    method RegisterContributor(discordUsername: string, creditName: string, displayName: Value, itchIoLink: Value, altLink: Value)
      requires Valid()
      modifies this
      ensures Valid()
      ensures Rows(Contributors) == old(Rows(Contributors)) + [Row(old(NextId(Contributors)), ContributorCols(discordUsername, creditName, displayName, itchIoLink, altLink))]
      ensures forall u :: u != Contributors ==> Rows(u) == old(Rows(u)) && NextId(u) == old(NextId(u))
    {
      ContributorInsertFills(discordUsername, creditName, displayName, itchIoLink, altLink);
      var ok := InsertInto(Contributors, ContributorCols(discordUsername, creditName, displayName, itchIoLink, altLink));
    }

    // --- Asset requests ----------------------------------------------------------

    /** `add_asset_request(...)`: one asset_requests row, always with status "Pending" and no acceptor. */
    method AddAssetRequest(gameId: int, assetType: string, content: string, context: string, requestedBy: string)
      requires Valid()
      modifies this
      ensures Valid()
      ensures Rows(AssetRequests) == old(Rows(AssetRequests)) + [Row(old(NextId(AssetRequests)), RequestCols(gameId, assetType, content, context, requestedBy))]
      ensures forall u :: u != AssetRequests ==> Rows(u) == old(Rows(u)) && NextId(u) == old(NextId(u))
    {
      RequestInsertFills(gameId, assetType, content, context, requestedBy);
      var ok := InsertInto(AssetRequests, RequestInsertCols(gameId, assetType, content, context, requestedBy));
    }

    /**
     * `mark_request_accepted(request_id, user)`: on the row with that id, status
     * becomes "Accepted" and accepted_by the user, whatever the status was; no
     * other row and no other column changes.
     */
    method MarkRequestAccepted(requestId: int, user: string)
      requires Valid()
      modifies this
      ensures Valid()
      ensures |Rows(AssetRequests)| == |old(Rows(AssetRequests))|
      ensures forall k :: 0 <= k < |Rows(AssetRequests)| ==>
                var before, after := old(Rows(AssetRequests))[k], Rows(AssetRequests)[k];
                after.id == before.id &&
                after.cols == if before.id == requestId
                              then before.cols["status" := Text("Accepted")]["accepted_by" := Text(user)]
                              else before.cols
      ensures forall u :: u != AssetRequests ==> Rows(u) == old(Rows(u))
      ensures forall u :: NextId(u) == old(NextId(u))
    {
      var ok1 := UpdateField(AssetRequests, requestId, "status", Text("Accepted"));
      var ok2 := UpdateField(AssetRequests, requestId, "accepted_by", Text(user));
    }

    /** `mark_request_finished(request_id)`: only the status column of that row changes, to "Finished". */
    method MarkRequestFinished(requestId: int)
      requires Valid()
      modifies this
      ensures Valid()
      ensures |Rows(AssetRequests)| == |old(Rows(AssetRequests))|
      ensures forall k :: 0 <= k < |Rows(AssetRequests)| ==>
                var before, after := old(Rows(AssetRequests))[k], Rows(AssetRequests)[k];
                after.id == before.id &&
                after.cols == if before.id == requestId then before.cols["status" := Text("Finished")] else before.cols
      ensures forall u :: u != AssetRequests ==> Rows(u) == old(Rows(u))
      ensures forall u :: NextId(u) == old(NextId(u))
    {
      var ok := UpdateField(AssetRequests, requestId, "status", Text("Finished"));
    }

    /** `is_request_pending(request)`: a row with the request's id exists and its status is "Pending". */
    function IsRequestPending(requestId: int): (r: bool)
      reads this
      ensures r <==> exists k :: 0 <= k < |assetRequests| && assetRequests[k].id == requestId
                                  && Field(assetRequests[k], "status") == Text("Pending")
    {
      FetchOne(AssetRequests, (x: Row) => x.id == requestId && Field(x, "status") == Text("Pending")).Some?
    }

    /**
     * `get_asset_requests_by_type(type, status, user)`: the rows of that asset
     * type and status, in table order; a user that is not empty (Python's
     * `if user:`) must also equal `requested_by`.
     */
    function GetAssetRequestsByType(assetType: string, status: string, user: Option<string>): (r: seq<Row>)
      reads this
      ensures forall x :: x in r <==> x in assetRequests && IsRequestOfKind(x, assetType, status, user)
    {
      FetchAll(AssetRequests, (x: Row) => IsRequestOfKind(x, assetType, status, user))
    }

    /** `remove_asset_requests_for_game(game_id)`: deletes every request of that game, keeps all other rows. */
    method RemoveAssetRequestsForGame(gameId: int)
      requires Valid()
      modifies this
      ensures Valid()
      ensures forall x :: x in Rows(AssetRequests) <==> x in old(Rows(AssetRequests)) && !FieldIs(x, "game_id", Int(gameId))
      ensures forall u :: u != AssetRequests ==> Rows(u) == old(Rows(u))
      ensures forall u :: NextId(u) == old(NextId(u))
    {
      DeleteWhere(AssetRequests, (x: Row) => FieldIs(x, "game_id", Int(gameId)));
    }
  }

  /** The columns `add_game` passes to `insert_into_db`. */
  function GameInsertCols(name: string, repoName: string, channelId: int, ownerName: string, ownerDisplayName: string): map<string, Value> {
    map["name" := Text(name), "repo_name" := Text(repoName), "channel_id" := Int(channelId),
        "owner" := Text(ownerName), "owner_display_name" := Text(ownerDisplayName)]
  }

  /** The columns `add_asset_request` passes to `insert_into_db`. */
  function RequestInsertCols(gameId: int, assetType: string, content: string, context: string, requestedBy: string): map<string, Value> {
    map["game_id" := Int(gameId), "asset_type" := Text(assetType), "content" := Text(content),
        "context" := Text(context), "requested_by" := Text(requestedBy), "status" := Text("Pending")]
  }

  /** `add_game`'s insert succeeds, and the row it adds has `itch_io_link` NULL. */
  lemma GameInsertFills(name: string, repoName: string, channelId: int, ownerName: string, ownerDisplayName: string)
    ensures GameInsertCols(name, repoName, channelId, ownerName, ownerDisplayName).Keys <= Columns(Games)
    ensures MeetsNotNull(Games, GameInsertCols(name, repoName, channelId, ownerName, ownerDisplayName))
    ensures NewCols(Games, GameInsertCols(name, repoName, channelId, ownerName, ownerDisplayName))
         == GameCols(name, repoName, channelId, ownerName, ownerDisplayName)
  {
  }

  /** `register_contributor`'s insert names every column, and succeeds. */
  lemma ContributorInsertFills(discordUsername: string, creditName: string, displayName: Value, itchIoLink: Value, altLink: Value)
    ensures ContributorCols(discordUsername, creditName, displayName, itchIoLink, altLink).Keys == Columns(Contributors)
    ensures MeetsNotNull(Contributors, ContributorCols(discordUsername, creditName, displayName, itchIoLink, altLink))
    ensures NewCols(Contributors, ContributorCols(discordUsername, creditName, displayName, itchIoLink, altLink))
         == ContributorCols(discordUsername, creditName, displayName, itchIoLink, altLink)
  {
  }

  /** `add_asset_request`'s insert succeeds, and the row it adds has `accepted_by` NULL. */
  lemma RequestInsertFills(gameId: int, assetType: string, content: string, context: string, requestedBy: string)
    ensures RequestInsertCols(gameId, assetType, content, context, requestedBy).Keys <= Columns(AssetRequests)
    ensures MeetsNotNull(AssetRequests, RequestInsertCols(gameId, assetType, content, context, requestedBy))
    ensures NewCols(AssetRequests, RequestInsertCols(gameId, assetType, content, context, requestedBy))
         == RequestCols(gameId, assetType, content, context, requestedBy)
  {
  }

  /** The columns of the row `add_game` adds. */
  function GameCols(name: string, repoName: string, channelId: int, ownerName: string, ownerDisplayName: string): map<string, Value> {
    map["name" := Text(name), "repo_name" := Text(repoName), "channel_id" := Int(channelId),
        "owner" := Text(ownerName), "owner_display_name" := Text(ownerDisplayName), "itch_io_link" := Null]
  }

  /** The columns `register_contributor` sets. */
  function ContributorCols(discordUsername: string, creditName: string, displayName: Value, itchIoLink: Value, altLink: Value): map<string, Value> {
    map["discord_username" := Text(discordUsername), "discord_display_name" := displayName,
        "credit_name" := Text(creditName), "itch_io_link" := itchIoLink, "alt_link" := altLink]
  }

  /** The columns `add_asset_request` sets. */
  function RequestCols(gameId: int, assetType: string, content: string, context: string, requestedBy: string): map<string, Value> {
    map["game_id" := Int(gameId), "asset_type" := Text(assetType), "content" := Text(content),
        "context" := Text(context), "requested_by" := Text(requestedBy), "accepted_by" := Null,
        "status" := Text("Pending")]
  }

  /** Python's truth value of an optional text: `None` and `""` are false. */
  predicate Truthy(user: Option<string>) {
    user.Some? && user.value != ""
  }

  /** The WHERE clause of `get_asset_requests_by_type`. */
  predicate IsRequestOfKind(x: Row, assetType: string, status: string, user: Option<string>) {
    && FieldIs(x, "asset_type", Text(assetType))
    && FieldIs(x, "status", Text(status))
    && (Truthy(user) ==> FieldIs(x, "requested_by", Text(user.value)))
  }
}
