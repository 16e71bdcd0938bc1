/**
 * Schema v3 to v4 and back: one table per collection, with a column per payload key, against one compact
 * table of JSON records. An absent cell is SQL NULL. The JSON codec is a parameter: an inverse pair.
 */
module MigrationV4 {
  import opened Wrappers
  import opened JsonValues

  datatype Codec = Codec(encode: Json -> string, decode: string -> Option<Json>) {
    ghost predicate Inverse() {
      forall v :: decode(encode(v)) == Some(v)
    }

    predicate Readable(cell: Cell) {
      cell.Text? && decode(cell.text).Some?
    }

    /** The fields of a payload text, if it holds a JSON object. */
    function Fields(text: string): Option<map<string, Json>> {
      var v := decode(text);
      if v.Some? && v.value.Obj? then Some(v.value.fields) else None
    }
  }

  datatype Cell = Text(text: string) | NonText

  type Row = map<string, Cell>

  /** `columns` leaves out `id`, which keys the rows. `unkeyed` counts the rows whose id is NULL or no text. */
  datatype Table = Table(columns: set<string>, rows: map<string, Row>, unkeyed: nat)

  /** The workspace table by namespace and key; `unkeyed` counts the rows with one that is no text. */
  datatype Workspace = Workspace(rows: map<(string, string), WorkspaceRow>, unkeyed: nat)

  datatype WorkspaceRow = WorkspaceRow(value: Cell, createdAt: Cell, updatedAt: Cell)

  const NO_WORKSPACE := Workspace(map[], 0)

  type Records = map<(string, string), string>

  datatype Error =
    | MissingTable
    | InvalidRecordId
    | NonJsonColumn
    | InvalidWorkspace
    | WorkspaceNotEmpty
    | InvalidPayload
    | DuplicateColumn

  const COLLECTIONS: seq<string> := [
    "memory_entries", "memory_candidates", "trace_nodes", "trace_edges", "reason_threads", "reason_steps",
    "persona_prompts", "profile_items", "source_documents", "source_chunks", "notification_outbox",
    "reflection_entries", "chat_threads", "memory_curator_cursors", "memory_curator_plans", "scheduler_state"]

  // ---------------------------------------------------------------- column names

  function FoldChar(c: char): char {
    if 'A' <= c <= 'Z' then c - 'A' + 'a' else c
  }

  function Fold(s: string): string {
    seq(|s|, i requires 0 <= i < |s| => FoldChar(s[i]))
  }

  /** SQLite compares column names without regard to ASCII case. */
  predicate NoClash(names: set<string>) {
    forall a, b :: a in names && b in names && Fold(a) == Fold(b) ==> a == b
  }

  /** The same character, or the two cases of one ASCII letter. */
  predicate SameLetter(a: char, b: char) {
    a == b || ('A' <= a <= 'Z' && b as int == a as int + 32) || ('A' <= b <= 'Z' && a as int == b as int + 32)
  }

  lemma FoldIgnoresCase(a: string, b: string)
    ensures Fold(a) == Fold(b) <==> |a| == |b| && forall i :: 0 <= i < |a| ==> SameLetter(a[i], b[i])
  {
    if |a| == |b| {
      assert forall i :: 0 <= i < |a| ==> (Fold(a)[i] == Fold(b)[i] <==> SameLetter(a[i], b[i]));
      assert (forall i :: 0 <= i < |a| ==> Fold(a)[i] == Fold(b)[i]) ==> Fold(a) == Fold(b);
    }
  }

  predicate WellFormed(t: Table) {
    && "id" !in t.columns && NoClash(t.columns + {"id"})
    && forall id :: id in t.rows ==> t.rows[id].Keys <= t.columns
  }

  // ---------------------------------------------------------------- upgrade

  predicate RowUpgradable(codec: Codec, row: Row) {
    forall column :: column in row ==> codec.Readable(row[column])
  }

  function Payload(codec: Codec, row: Row): map<string, Json>
    requires RowUpgradable(codec, row)
  {
    map column | column in row :: codec.decode(row[column].text).value
  }

  predicate TableUpgradable(codec: Codec, t: Table) {
    t.unkeyed == 0 && forall id :: id in t.rows ==> id != "" && RowUpgradable(codec, t.rows[id])
  }

  predicate AllUpgradable(codec: Codec, tables: map<string, Table>, collections: seq<string>) {
    forall c :: c in collections ==> c in tables && TableUpgradable(codec, tables[c])
  }

  predicate Upgradable(codec: Codec, tables: map<string, Table>) {
    AllUpgradable(codec, tables, COLLECTIONS)
  }

  /** The payload texts of one table, by id. */
  function Texts(codec: Codec, t: Table): map<string, string>
    requires TableUpgradable(codec, t)
  {
    map id | id in t.rows :: codec.encode(Obj(Payload(codec, t.rows[id])))
  }

  function RecordKeys(tables: map<string, Table>, collections: seq<string>): set<(string, string)> {
    set c, id | c in tables && c in collections && id in tables[c].rows :: (c, id)
  }

  function RecordsOf(codec: Codec, tables: map<string, Table>, collections: seq<string>): Records
    requires AllUpgradable(codec, tables, collections)
  {
    map k | k in RecordKeys(tables, collections) :: Texts(codec, tables[k.0])[k.1]
  }

  function Upgraded(codec: Codec, tables: map<string, Table>): Records
    requires Upgradable(codec, tables)
  {
    RecordsOf(codec, tables, COLLECTIONS)
  }

  predicate WorkspaceRowUpgradable(codec: Codec, row: WorkspaceRow) {
    && row.value.Text? && row.createdAt.Text? && row.updatedAt.Text?
    && codec.Fields(row.value.text).Some?
  }

  predicate WorkspaceUpgradable(codec: Codec, w: Workspace) {
    w.unkeyed == 0 && forall k :: k in w.rows ==> WorkspaceRowUpgradable(codec, w.rows[k])
  }

  function WorkspaceRowUpgraded(codec: Codec, row: WorkspaceRow): WorkspaceRow
    requires WorkspaceRowUpgradable(codec, row)
  {
    row.(value := Text(codec.encode(Obj(codec.Fields(row.value.text).value))))
  }

  function WorkspaceUpgraded(codec: Codec, w: Workspace): Workspace
    requires WorkspaceUpgradable(codec, w)
  {
    w.(rows := map k | k in w.rows :: WorkspaceRowUpgraded(codec, w.rows[k]))
  }

  /** The upgrade keeps every workspace entry: its JSON value and both times. */
  lemma WorkspaceKept(codec: Codec, w: Workspace)
    requires codec.Inverse() && WorkspaceUpgradable(codec, w)
    ensures var after := WorkspaceUpgraded(codec, w);
            && WorkspaceUpgradable(codec, after) && after.rows.Keys == w.rows.Keys
            && forall k :: k in w.rows ==>
                 && codec.Fields(after.rows[k].value.text) == codec.Fields(w.rows[k].value.text)
                 && after.rows[k] == w.rows[k].(value := after.rows[k].value)
  {
    forall k | k in w.rows
      ensures codec.Fields(WorkspaceRowUpgraded(codec, w.rows[k]).value.text) == codec.Fields(w.rows[k].value.text)
    {
      assert codec.decode(codec.encode(Obj(codec.Fields(w.rows[k].value.text).value))).Some?;
    }
  }

  // ---------------------------------------------------------------- downgrade

  /** The rows of one collection: `SELECT id, payload FROM records WHERE collection = c`. */
  function Part(records: Records, c: string): map<string, string> {
    map id | id in (set k | k in records && k.0 == c :: k.1) && (c, id) in records :: records[(c, id)]
  }

  predicate Decodable(codec: Codec, part: map<string, string>) {
    forall id :: id in part ==> codec.Fields(part[id]).Some?
  }

  /** Every payload key except `id`. */
  function Columns(codec: Codec, part: map<string, string>): set<string>
    requires Decodable(codec, part)
  {
    set id, key | id in part && key in codec.Fields(part[id]).value && key != "id" :: key
  }

  predicate PartDowngradable(codec: Codec, part: map<string, string>) {
    Decodable(codec, part) && NoClash(Columns(codec, part) + {"id"})
  }

  predicate Downgradable(codec: Codec, records: Records) {
    forall c :: c in COLLECTIONS ==> PartDowngradable(codec, Part(records, c))
  }

  function RowOf(codec: Codec, fields: map<string, Json>): Row {
    map key | key in fields && key != "id" :: Text(codec.encode(fields[key]))
  }

  function TableOf(codec: Codec, part: map<string, string>): Table
    requires Decodable(codec, part)
  {
    Table(Columns(codec, part), map id | id in part :: RowOf(codec, codec.Fields(part[id]).value), 0)
  }

  function Downgraded(codec: Codec, records: Records): map<string, Table>
    requires Downgradable(codec, records)
  {
    map c | c in COLLECTIONS :: TableOf(codec, Part(records, c))
  }

  // ---------------------------------------------------------------- upgrade, then downgrade

  /** The same columns hold something, and the same JSON values. */
  predicate SameRow(codec: Codec, a: Row, b: Row) {
    && a.Keys == b.Keys
    && forall column :: column in a ==>
         codec.Readable(a[column]) && codec.Readable(b[column])
         && codec.decode(a[column].text) == codec.decode(b[column].text)
  }

  /** The columns that hold something in some row. */
  function UsedColumns(t: Table): set<string> {
    set id, column | id in t.rows && column in t.rows[id] :: column
  }

  lemma RowUndone(codec: Codec, row: Row)
    requires codec.Inverse() && RowUpgradable(codec, row) && "id" !in row
    ensures SameRow(codec, row, RowOf(codec, Payload(codec, row)))
  {
  }

  lemma TextsDecode(codec: Codec, t: Table)
    requires codec.Inverse() && TableUpgradable(codec, t)
    ensures Texts(codec, t).Keys == t.rows.Keys
    ensures forall id :: id in t.rows ==> codec.Fields(Texts(codec, t)[id]) == Some(Payload(codec, t.rows[id]))
  {
  }

  lemma TableUndone(codec: Codec, t: Table)
    requires codec.Inverse() && TableUpgradable(codec, t) && WellFormed(t)
    ensures var part := Texts(codec, t);
            && PartDowngradable(codec, part)
            && TableOf(codec, part).rows.Keys == t.rows.Keys
            && (forall id :: id in t.rows ==> SameRow(codec, t.rows[id], TableOf(codec, part).rows[id]))
            && TableOf(codec, part).columns == UsedColumns(t)
  {
    TextsDecode(codec, t);
    forall id | id in t.rows ensures SameRow(codec, t.rows[id], RowOf(codec, Payload(codec, t.rows[id]))) {
      RowUndone(codec, t.rows[id]);
    }
    hide SameRow, RowOf, Texts, NoClash;
    UsedAreColumns(codec, t);
    ClashFree(UsedColumns(t) + {"id"}, t.columns + {"id"});
  }

  lemma UsedAreColumns(codec: Codec, t: Table)
    requires codec.Inverse() && TableUpgradable(codec, t) && WellFormed(t)
    ensures Decodable(codec, Texts(codec, t)) && Columns(codec, Texts(codec, t)) == UsedColumns(t)
    ensures UsedColumns(t) <= t.columns
  {
    TextsDecode(codec, t);
    hide Texts, NoClash;
    var part := Texts(codec, t);
    forall column | column in UsedColumns(t) ensures column in Columns(codec, part) {
      var id :| id in t.rows && column in t.rows[id];
      assert id in part && column in codec.Fields(part[id]).value;
    }
  }

  lemma ClashFree(a: set<string>, b: set<string>)
    requires a <= b && NoClash(b)
    ensures NoClash(a)
  {
  }

  lemma PartOfUpgraded(codec: Codec, tables: map<string, Table>, c: string)
    requires Upgradable(codec, tables) && c in COLLECTIONS
    ensures Part(Upgraded(codec, tables), c) == Texts(codec, tables[c])
  {
    var part := Part(Upgraded(codec, tables), c);
    forall id ensures id in part <==> id in tables[c].rows {
      assert id in tables[c].rows ==> (c, id) in Upgraded(codec, tables);
    }
  }

  /** Upgrade then downgrade keeps, per collection, every id with its columns and their JSON values; what
      is lost are exactly the columns that are NULL in every row. */
  lemma UpgradeUndone(codec: Codec, tables: map<string, Table>)
    requires codec.Inverse() && Upgradable(codec, tables)
    requires forall c :: c in COLLECTIONS ==> WellFormed(tables[c])
    ensures var records := Upgraded(codec, tables);
            && Downgradable(codec, records)
            && forall c :: c in COLLECTIONS ==>
                 var before, after := tables[c], Downgraded(codec, records)[c];
                 && after.rows.Keys == before.rows.Keys && after.unkeyed == before.unkeyed == 0
                 && (forall id :: id in before.rows ==> SameRow(codec, before.rows[id], after.rows[id]))
                 && after.columns == UsedColumns(before)
  {
    forall c | c in COLLECTIONS
      ensures PartDowngradable(codec, Part(Upgraded(codec, tables), c))
      ensures Part(Upgraded(codec, tables), c) == Texts(codec, tables[c])
    {
      PartOfUpgraded(codec, tables, c);
      TableUndone(codec, tables[c]);
    }
    hide SameRow, UsedColumns, TableOf, PartDowngradable, Part, Upgraded, Texts;
    forall c | c in COLLECTIONS
      ensures var before, after := tables[c], Downgraded(codec, Upgraded(codec, tables))[c];
              && after.rows.Keys == before.rows.Keys && after.unkeyed == before.unkeyed == 0
              && (forall id :: id in before.rows ==> SameRow(codec, before.rows[id], after.rows[id]))
              && after.columns == UsedColumns(before)
    {
      TableUndone(codec, tables[c]);
    }
  }

  /** What the upgrade writes: one record per row of a known table, whose payload has the columns of the row
      that hold something, each with the value that its cell decodes to. */
  lemma RecordHoldsTheRow(codec: Codec, tables: map<string, Table>, c: string, id: string)
    requires codec.Inverse() && Upgradable(codec, tables)
    ensures (c, id) in Upgraded(codec, tables) <==> c in COLLECTIONS && id in tables[c].rows
    ensures c in COLLECTIONS && id in tables[c].rows ==>
              var payload := codec.decode(Upgraded(codec, tables)[(c, id)]);
              var row := tables[c].rows[id];
              && id != "" && payload.Some? && payload.value.Obj? && payload.value.fields.Keys == row.Keys
              && forall column :: column in row ==>
                   row[column].Text? && codec.decode(row[column].text) == Some(payload.value.fields[column])
  {
    RecordAt(codec, tables, COLLECTIONS, (c, id));
    if c in COLLECTIONS && id in tables[c].rows {
      TextsDecode(codec, tables[c]);
    }
    hide Texts, RecordsOf;
  }

  /** What the downgrade writes: one row per record, whose cells are the encoded values of the payload's keys
      but `id`, in a table with a column for each key that some record of the collection has. */
  lemma RowHoldsTheRecord(codec: Codec, records: Records, c: string, id: string)
    requires Downgradable(codec, records) && c in COLLECTIONS
    ensures var t := Downgraded(codec, records)[c];
            && t.unkeyed == 0 && (id in t.rows <==> (c, id) in records)
            && ((c, id) in records ==>
                  var payload := codec.decode(records[(c, id)]);
                  && payload.Some? && payload.value.Obj?
                  && t.rows[id].Keys == payload.value.fields.Keys - {"id"} <= t.columns
                  && forall key :: key in t.rows[id] ==>
                       t.rows[id][key] == Text(codec.encode(payload.value.fields[key])))
            && forall key :: key in t.columns ==> exists other :: other in t.rows && key in t.rows[other]
  {
    var part, t := Part(records, c), Downgraded(codec, records)[c];
    assert id in part <==> (c, id) in records;
    hide Part, NoClash;
    forall key | key in t.columns ensures exists other :: other in t.rows && key in t.rows[other] {
      var other :| other in part && key in codec.Fields(part[other]).value;
      assert key in t.rows[other];
    }
  }

  // ---------------------------------------------------------------- downgrade, then upgrade

  /** The same ids with the same JSON payloads. */
  predicate SameRecords(codec: Codec, a: Records, b: Records) {
    a.Keys == b.Keys && forall k :: k in a ==> codec.decode(a[k]) == codec.decode(b[k])
  }

  /** What a downgrade can represent: records of known collections, with an id, and no `id` key inside. */
  predicate Representable(codec: Codec, records: Records) {
    forall k :: k in records ==>
      k.0 in COLLECTIONS && k.1 != "" && codec.Fields(records[k]).Some? && "id" !in codec.Fields(records[k]).value
  }

  lemma PartUndone(codec: Codec, part: map<string, string>)
    requires codec.Inverse() && Decodable(codec, part)
    ensures var t := TableOf(codec, part);
            && t.unkeyed == 0 && t.rows.Keys == part.Keys
            && forall id :: id in part ==>
                 && RowUpgradable(codec, t.rows[id])
                 && Payload(codec, t.rows[id]) == codec.Fields(part[id]).value - {"id"}
  {
  }

  /** A downgrade can be upgraded again if and only if no record of a known collection has an empty id. */
  lemma DowngradeUpgradable(codec: Codec, records: Records)
    requires codec.Inverse() && Downgradable(codec, records)
    ensures Upgradable(codec, Downgraded(codec, records))
       <==> forall k :: k in records && k.0 in COLLECTIONS ==> k.1 != ""
  {
    forall c | c in COLLECTIONS
      ensures TableUpgradable(codec, TableOf(codec, Part(records, c))) <==> "" !in Part(records, c)
    {
      PartUndone(codec, Part(records, c));
    }
    forall c | c in COLLECTIONS ensures "" in Part(records, c) <==> (c, "") in records {
    }
  }

  /** Downgrade then upgrade gives the records back if and only if the downgrade could represent them all. */
  lemma DowngradeUndone(codec: Codec, records: Records)
    requires codec.Inverse() && Downgradable(codec, records)
    ensures Representable(codec, records) <==>
              && Upgradable(codec, Downgraded(codec, records))
              && SameRecords(codec, Upgraded(codec, Downgraded(codec, records)), records)
  {
    hide Part, Texts, TableOf, TableUpgradable, PartDowngradable, RecordsOf;
    DowngradeUpgradable(codec, records);
    if Upgradable(codec, Downgraded(codec, records)) {
      forall k { RecordAgain(codec, records, k); }
    }
  }

  /** One record there and back. */
  lemma RecordAgain(codec: Codec, records: Records, k: (string, string))
    requires codec.Inverse() && Downgradable(codec, records) && Upgradable(codec, Downgraded(codec, records))
    ensures var again := Upgraded(codec, Downgraded(codec, records));
            && (k in again <==> k in records && k.0 in COLLECTIONS)
            && (k in again ==> codec.Fields(records[k]).Some?
                               && (codec.decode(again[k]) == codec.decode(records[k])
                                  <==> "id" !in codec.Fields(records[k]).value))
  {
    hide Texts, RecordsOf, TableUpgradable, NoClash;
    RecordAt(codec, Downgraded(codec, records), COLLECTIONS, k);
    if k in records && k.0 in COLLECTIONS {
      PartAt(records, k);
      PayloadAgain(codec, Part(records, k.0), k.1);
    }
  }

  lemma PayloadAgain(codec: Codec, part: map<string, string>, id: string)
    requires codec.Inverse() && Decodable(codec, part) && id in part && TableUpgradable(codec, TableOf(codec, part))
    ensures id in Texts(codec, TableOf(codec, part))
    ensures codec.decode(Texts(codec, TableOf(codec, part))[id]) == codec.decode(part[id])
       <==> "id" !in codec.Fields(part[id]).value
  {
    PartUndone(codec, part);
    TextsDecode(codec, TableOf(codec, part));
    var fields := codec.Fields(part[id]).value;
    assert fields - {"id"} == fields <==> "id" !in fields;
  }

  lemma PartAt(records: Records, k: (string, string))
    requires k in records
    ensures k.1 in Part(records, k.0) && Part(records, k.0)[k.1] == records[k]
  {
  }

  /** The key is a column of the collection, or the column `id` that every table has. */
  predicate Column(codec: Codec, records: Records, c: string, id: string, key: string) {
    || key == "id"
    || ((c, id) in records && codec.Fields(records[(c, id)]).Some? && key in codec.Fields(records[(c, id)]).value)
  }

  /** Two different keys, in one record or in two of the same collection, that are one column name. */
  predicate Clash(codec: Codec, records: Records, c: string, i: string, a: string, j: string, b: string) {
    && c in COLLECTIONS && Column(codec, records, c, i, a) && Column(codec, records, c, j, b)
    && a != b && Fold(a) == Fold(b)
  }

  /** Records have a v3 form exactly when their payloads are objects and no two keys of a collection are equal
      up to ASCII case: a payload can have both, a table cannot. */
  lemma DowngradableIffNoClash(codec: Codec, records: Records)
    ensures Downgradable(codec, records)
       <==> && (forall k :: k in records && k.0 in COLLECTIONS ==> codec.Fields(records[k]).Some?)
            && (forall c, i, a, j, b :: !Clash(codec, records, c, i, a, j, b))
  {
    if forall k :: k in records && k.0 in COLLECTIONS ==> codec.Fields(records[k]).Some? {
      forall c | c in COLLECTIONS
        ensures PartDowngradable(codec, Part(records, c))
                <==> forall i, a, j, b :: !Clash(codec, records, c, i, a, j, b)
      {
        PartClashes(codec, records, c);
      }
      assert Downgradable(codec, records) <==> forall c, i, a, j, b :: !Clash(codec, records, c, i, a, j, b);
    } else {
      var k :| k in records && k.0 in COLLECTIONS && codec.Fields(records[k]).None?;
      PartAt(records, k);
    }
  }

  lemma PartClashes(codec: Codec, records: Records, c: string)
    requires c in COLLECTIONS && Decodable(codec, Part(records, c))
    ensures PartDowngradable(codec, Part(records, c)) <==> forall i, a, j, b :: !Clash(codec, records, c, i, a, j, b)
  {
    var names := Columns(codec, Part(records, c)) + {"id"};
    forall key ensures key in names <==> exists id :: Column(codec, records, c, id, key) {
      ColumnNames(codec, records, c, key);
    }
    forall i, a, j, b | Clash(codec, records, c, i, a, j, b) ensures !NoClash(names) {
      assert a in names && b in names;
    }
    if !NoClash(names) {
      var a, b :| a in names && b in names && Fold(a) == Fold(b) && a != b;
      var i :| Column(codec, records, c, i, a);
      var j :| Column(codec, records, c, j, b);
      assert Clash(codec, records, c, i, a, j, b);
    }
  }

  lemma ColumnNames(codec: Codec, records: Records, c: string, key: string)
    requires Decodable(codec, Part(records, c))
    ensures key in Columns(codec, Part(records, c)) + {"id"} <==> exists id :: Column(codec, records, c, id, key)
  {
    var part := Part(records, c);
    if key == "id" {
      assert Column(codec, records, c, "", key);
    } else {
      if id :| Column(codec, records, c, id, key) {
        PartAt(records, (c, id));
        assert key in codec.Fields(part[id]).value;
      }
      if key in Columns(codec, part) {
        var id :| id in part && key in codec.Fields(part[id]).value;
        assert Column(codec, records, c, id, key);
      }
    }
  }

  /** Any two keys that are equal up to case make the downgrade fail, and so does any key that is `id` up to
      case. */
  lemma CaseClashHasNoDowngrade(codec: Codec, records: Records, c: string, i: string, a: string, j: string, b: string)
    requires Clash(codec, records, c, i, a, j, b)
    ensures !Downgradable(codec, records)
  {
    DowngradableIffNoClash(codec, records);
  }

  /** Records that v4 can hold and v3 cannot. */
  lemma ClashingRecords(codec: Codec, c: string, id: string, a: Json, b: Json)
    requires codec.Inverse() && c in COLLECTIONS
    ensures !Downgradable(codec, map[(c, id) := codec.encode(Obj(map["Key" := a, "key" := b]))])
    ensures !Downgradable(codec, map[(c, id) := codec.encode(Obj(map["ID" := a]))])
  {
    hide Downgradable;
    CaseFolds();
    var both := map[(c, id) := codec.encode(Obj(map["Key" := a, "key" := b]))];
    CaseClashHasNoDowngrade(codec, both, c, id, "Key", id, "key");
    CaseClashHasNoDowngrade(codec, map[(c, id) := codec.encode(Obj(map["ID" := a]))], c, id, "ID", id, "id");
  }

  lemma CaseFolds()
    ensures Fold("Key") == Fold("key") && "Key" != "key"
    ensures Fold("ID") == Fold("id") && "ID" != "id"
  {
    assert "Key"[0] != "key"[0] && "ID"[0] != "id"[0];
  }

  /** A v4 record with an empty id is downgraded but cannot be upgraded again. */
  lemma EmptyIdIsNotUpgradedAgain(codec: Codec, c: string)
    requires codec.Inverse() && c in COLLECTIONS
    ensures var records := map[(c, "") := codec.encode(Obj(map[]))];
            Downgradable(codec, records) && !Upgradable(codec, Downgraded(codec, records))
  {
    var records := map[(c, "") := codec.encode(Obj(map[]))];
    assert codec.Fields(codec.encode(Obj(map[]))) == Some(map[]);
    DowngradableIffNoClash(codec, records);
    DowngradeUpgradable(codec, records);
    assert (c, "") in records;
  }

  // ---------------------------------------------------------------- the migration itself

  class Database {
    const codec: Codec
    var tables: map<string, Table>
    var records: Records
    var workspace: Workspace

    constructor (codec: Codec, tables: map<string, Table>, records: Records, workspace: Workspace)
      ensures this.codec == codec && this.tables == tables && this.records == records && this.workspace == workspace
    {
      this.codec, this.tables, this.records, this.workspace := codec, tables, records, workspace;
    }

    /** The workspace table is recreated; each value must be a JSON object and is encoded afresh. */
    method UpgradeWorkspace() returns (r: Result<(), Error>)
      modifies this`workspace
      ensures r.Ok? <==> WorkspaceUpgradable(codec, old(workspace))
      ensures r.Ok? ==> workspace == WorkspaceUpgraded(codec, old(workspace))
    {
      if workspace.unkeyed > 0 {
        return Err(InvalidWorkspace);
      }
      var before, after: map<(string, string), WorkspaceRow>, rest := workspace.rows, map[], workspace.rows.Keys;
      while rest != {}
        invariant rest <= before.Keys && after.Keys == before.Keys - rest
        invariant forall k :: k in after ==>
                    WorkspaceRowUpgradable(codec, before[k]) && after[k] == WorkspaceRowUpgraded(codec, before[k])
      {
        var k :| k in rest;
        rest := rest - {k};
        var row := before[k];
        if row.value.NonText? || row.createdAt.NonText? || row.updatedAt.NonText? {
          return Err(InvalidWorkspace);
        }
        var fields := codec.Fields(row.value.text);
        if fields.None? {
          return Err(InvalidWorkspace);
        }
        after := after[k := row.(value := Text(codec.encode(Obj(fields.value))))];
      }
      workspace := Workspace(after, 0);
      r := Ok(());
    }

    /** Collect the cells of one row that are not NULL. */
    method ReadRow(t: Table, row: Row) returns (r: Result<map<string, Json>, Error>)
      requires row.Keys <= t.columns
      ensures r.Ok? <==> RowUpgradable(codec, row)
      ensures r.Ok? ==> r.value == Payload(codec, row)
    {
      var payload: map<string, Json> := map[];
      var rest := t.columns;
      while rest != {}
        invariant rest <= t.columns
        invariant payload.Keys == row.Keys - rest
        invariant forall column :: column in payload ==>
                    codec.Readable(row[column]) && payload[column] == codec.decode(row[column].text).value
      {
        var column :| column in rest;
        rest := rest - {column};
        if column !in row {
          continue;
        }
        if row[column].NonText? || codec.decode(row[column].text).None? {
          assert !codec.Readable(row[column]);
          return Err(NonJsonColumn);
        }
        payload := payload[column := codec.decode(row[column].text).value];
      }
      assert payload == Payload(codec, row);
      r := Ok(payload);
    }

    /** Move the rows of one table into the records table and drop it. */
    method UpgradeTable(c: string) returns (r: Result<(), Error>)
      requires c in tables ==> WellFormed(tables[c])
      modifies this`tables, this`records
      ensures r.Ok? <==> c in old(tables) && TableUpgradable(codec, old(tables)[c])
      ensures r.Ok? ==> tables == old(tables) - {c}
      ensures r.Ok? ==> records == old(records) + Tagged(c, Texts(codec, old(tables)[c]))
    {
      hide Tagged, RowUpgradable, Payload;
      if c !in tables {
        return Err(MissingTable);
      }
      var t := tables[c];
      if t.unkeyed > 0 {
        return Err(InvalidRecordId);
      }
      ghost var texts: map<string, string> := map[];
      TaggedNone(records, c);
      var rest := t.rows.Keys;
      while rest != {}
        invariant rest <= t.rows.Keys && tables == old(tables)
        invariant texts.Keys == t.rows.Keys - rest
        invariant forall id :: id in texts ==>
                    id != "" && RowUpgradable(codec, t.rows[id])
                      && texts[id] == codec.encode(Obj(Payload(codec, t.rows[id])))
        invariant records == old(records) + Tagged(c, texts)
      {
        var id :| id in rest;
        rest := rest - {id};
        if id == "" {
          return Err(InvalidRecordId);
        }
        var payload := ReadRow(t, t.rows[id]);
        if payload.Err? {
          return Err(payload.error);
        }
        var text := codec.encode(Obj(payload.value));
        TaggedGrows(old(records), c, texts, id, text);
        texts := texts[id := text];
        records := records[(c, id) := text];
      }
      assert texts == Texts(codec, t);
      tables := tables - {c};
      r := Ok(());
    }

    method UpgradeTables(collections: seq<string>) returns (r: Result<(), Error>)
      requires records == map[]
      requires forall i, j :: 0 <= i < j < |collections| ==> collections[i] != collections[j]
      requires forall c :: c in collections && c in tables ==> WellFormed(tables[c])
      modifies this`tables, this`records
      ensures r.Ok? <==> AllUpgradable(codec, old(tables), collections)
      ensures r.Ok? ==> records == RecordsOf(codec, old(tables), collections)
      ensures r.Ok? ==> tables == old(tables) - (set c | c in collections)
    {
      hide WellFormed, AllUpgradable, TableUpgradable, Texts, RecordsOf, Tagged;
      NoCollections(codec, tables);
      for i := 0 to |collections|
        invariant tables == old(tables) - (set c | c in collections[..i])
        invariant AllUpgradable(codec, old(tables), collections[..i])
        invariant records == RecordsOf(codec, old(tables), collections[..i])
      {
        var c := collections[i];
        ghost var before := collections[..i];
        assert collections[..i + 1] == before + [c] && c !in before;
        r := UpgradeTable(c);
        if r.Err? {
          NotAll(codec, old(tables), collections, c);
          return;
        }
        NextUpgradable(codec, old(tables), before, c);
        NextCollection(codec, old(tables), before, c);
      }
      assert collections[..|collections|] == collections;
      r := Ok(());
    }

    method Upgrade() returns (r: Result<(), Error>)
      requires records == map[]
      requires forall c :: c in COLLECTIONS && c in tables ==> WellFormed(tables[c])
      modifies this
      ensures r.Ok? <==> WorkspaceUpgradable(codec, old(workspace)) && Upgradable(codec, old(tables))
      ensures r.Ok? ==> records == Upgraded(codec, old(tables))
      ensures r.Ok? ==> tables == old(tables) - (set c | c in COLLECTIONS)
      ensures r.Ok? ==> workspace == WorkspaceUpgraded(codec, old(workspace))
    {
      r := UpgradeWorkspace();
      if r.Err? {
        return;
      }
      CollectionsDistinct();
      r := UpgradeTables(COLLECTIONS);
    }

    /** Decode the payloads of one collection and note every key. */
    method ReadPart(part: map<string, string>) returns (r: Result<(map<string, map<string, Json>>, set<string>), Error>)
      ensures r.Ok? <==> Decodable(codec, part)
      ensures r.Ok? ==> r.value.0 == Decoded(codec, part) && r.value.1 - {"id"} == Columns(codec, part)
    {
      var decoded: map<string, map<string, Json>>, keys := map[], {};
      var rest := part.Keys;
      while rest != {}
        invariant rest <= part.Keys && decoded.Keys == part.Keys - rest
        invariant forall id :: id in decoded ==> codec.Fields(part[id]) == Some(decoded[id])
        invariant keys == set id, key | id in decoded && key in decoded[id] :: key
      {
        var id :| id in rest;
        rest := rest - {id};
        var fields := codec.Fields(part[id]);
        if fields.None? {
          return Err(InvalidPayload);
        }
        KeysGrow(decoded, id, fields.value);
        decoded := decoded[id := fields.value];
        keys := keys + fields.value.Keys;
      }
      r := Ok((decoded, keys));
    }

    /** `ALTER TABLE ... ADD COLUMN` for each key but `id`; a name that is already there, in any case, fails. */
    method AddColumns(keys: set<string>) returns (r: Result<set<string>, Error>)
      ensures r.Ok? <==> NoClash(keys - {"id"} + {"id"})
      ensures r.Ok? ==> r.value == keys - {"id"}
    {
      var columns: set<string>, rest := {}, keys - {"id"};
      while rest != {}
        invariant columns + rest == keys - {"id"} && columns !! rest
        invariant NoClash(columns + {"id"})
      {
        var key :| key in rest;
        rest := rest - {key};
        if exists c :: c in columns + {"id"} && Fold(c) == Fold(key) {
          return Err(DuplicateColumn);
        }
        columns := columns + {key};
      }
      r := Ok(columns);
    }

    /** Create the table of one collection, add its columns and insert its rows. */
    method DowngradeCollection(c: string) returns (r: Result<(), Error>)
      requires c !in tables
      modifies this`tables
      ensures r.Ok? <==> PartDowngradable(codec, Part(records, c))
      ensures r.Ok? ==> Decodable(codec, Part(records, c))
      ensures r.Ok? ==> tables == old(tables)[c := TableOf(codec, Part(records, c))]
    {
      hide NoClash, Part, RowOf;
      var part := Part(records, c);
      var read :- ReadPart(part);
      var (decoded, keys) := read;
      var columns :- AddColumns(keys);
      var rows: map<string, Row> := map[];
      var rest := decoded.Keys;
      while rest != {}
        invariant rest <= decoded.Keys && rows.Keys == decoded.Keys - rest
        invariant forall id :: id in rows ==> rows[id] == RowOf(codec, decoded[id])
      {
        var id :| id in rest;
        rest := rest - {id};
        rows := rows[id := RowOf(codec, decoded[id])];
      }
      tables := tables[c := Table(columns, rows, 0)];
      assert rows == TableOf(codec, part).rows;
      r := Ok(());
    }

    method DowngradeCollections(collections: seq<string>) returns (r: Result<(), Error>)
      requires forall i, j :: 0 <= i < j < |collections| ==> collections[i] != collections[j]
      requires forall c :: c in collections ==> c !in tables
      modifies this`tables
      ensures r.Ok? <==> forall c :: c in collections ==> PartDowngradable(codec, Part(records, c))
      ensures r.Ok? ==>
                && tables.Keys == old(tables).Keys + (set c | c in collections)
                && (forall c :: c in collections ==> tables[c] == TableOf(codec, Part(records, c)))
                && forall c :: c in old(tables) ==> tables[c] == old(tables)[c]
    {
      hide PartDowngradable, TableOf, Part;
      for i := 0 to |collections|
        invariant tables.Keys == old(tables).Keys + (set c | c in collections[..i])
        invariant forall c :: c in collections[..i] ==>
                    && PartDowngradable(codec, Part(records, c)) && Decodable(codec, Part(records, c))
                    && tables[c] == TableOf(codec, Part(records, c))
        invariant forall c :: c in old(tables) ==> tables[c] == old(tables)[c]
      {
        assert collections[..i + 1] == collections[..i] + [collections[i]];
        r := DowngradeCollection(collections[i]);
        if r.Err? {
          return;
        }
      }
      assert collections[..|collections|] == collections;
      r := Ok(());
    }

    method Downgrade() returns (r: Result<(), Error>)
      requires tables == map[]
      modifies this
      ensures r.Ok? <==> old(workspace) == NO_WORKSPACE && Downgradable(codec, old(records))
      ensures r.Ok? ==> tables == Downgraded(codec, old(records)) && records == map[]
    {
      if workspace != NO_WORKSPACE {
        return Err(WorkspaceNotEmpty);
      }
      CollectionsDistinct();
      r := DowngradeCollections(COLLECTIONS);
      if r.Err? {
        return;
      }
      SameTables(codec, records, tables);
      records := map[];
    }
  }

  function Decoded(codec: Codec, part: map<string, string>): map<string, map<string, Json>>
    requires Decodable(codec, part)
  {
    map id | id in part :: codec.Fields(part[id]).value
  }

  lemma KeysGrow(decoded: map<string, map<string, Json>>, id: string, fields: map<string, Json>)
    requires id !in decoded
    ensures var grown := decoded[id := fields];
            (set x, key | x in grown && key in grown[x] :: key)
            == (set x, key | x in decoded && key in decoded[x] :: key) + fields.Keys
  {
    var grown := decoded[id := fields];
    forall key | key in fields ensures key in set x, key | x in grown && key in grown[x] :: key {
      assert id in grown && key in grown[id];
    }
    forall x, key | x in decoded && key in decoded[x] ensures key in set x, key | x in grown && key in grown[x] :: key {
      assert x in grown && key in grown[x];
    }
  }

  lemma SameTables(codec: Codec, records: Records, tables: map<string, Table>)
    requires Downgradable(codec, records) && tables.Keys == set c | c in COLLECTIONS
    requires forall c :: c in COLLECTIONS ==> tables[c] == TableOf(codec, Part(records, c))
    ensures tables == Downgraded(codec, records)
  {
  }

  lemma CollectionsDistinct()
    ensures forall i, j :: 0 <= i < j < |COLLECTIONS| ==> COLLECTIONS[i] != COLLECTIONS[j]
  {
  }

  lemma NoCollections(codec: Codec, tables: map<string, Table>)
    ensures AllUpgradable(codec, tables, []) && RecordsOf(codec, tables, []) == map[]
  {
  }

  lemma NotAll(codec: Codec, tables: map<string, Table>, collections: seq<string>, c: string)
    requires c in collections && !(c in tables && TableUpgradable(codec, tables[c]))
    ensures !AllUpgradable(codec, tables, collections)
  {
  }

  lemma NextUpgradable(codec: Codec, tables: map<string, Table>, collections: seq<string>, c: string)
    requires AllUpgradable(codec, tables, collections) && c in tables && TableUpgradable(codec, tables[c])
    ensures AllUpgradable(codec, tables, collections + [c])
  {
    hide TableUpgradable;
  }

  lemma NextCollection(codec: Codec, tables: map<string, Table>, collections: seq<string>, c: string)
    requires AllUpgradable(codec, tables, collections) && AllUpgradable(codec, tables, collections + [c])
    requires c in tables && TableUpgradable(codec, tables[c])
    ensures RecordsOf(codec, tables, collections + [c])
         == RecordsOf(codec, tables, collections) + Tagged(c, Texts(codec, tables[c]))
  {
    hide RecordsOf, Tagged, AllUpgradable, Texts, TableUpgradable;
    var a := RecordsOf(codec, tables, collections + [c]);
    var b := RecordsOf(codec, tables, collections) + Tagged(c, Texts(codec, tables[c]));
    forall k ensures (k in a <==> k in b) && (k in a ==> a[k] == b[k]) {
      NextRecordAt(codec, tables, collections, c, k);
    }
  }

  lemma NextRecordAt(codec: Codec, tables: map<string, Table>, collections: seq<string>, c: string, k: (string, string))
    requires AllUpgradable(codec, tables, collections) && AllUpgradable(codec, tables, collections + [c])
    requires c in tables && TableUpgradable(codec, tables[c])
    ensures var a := RecordsOf(codec, tables, collections + [c]);
            var b := RecordsOf(codec, tables, collections) + Tagged(c, Texts(codec, tables[c]));
            (k in a <==> k in b) && (k in a ==> a[k] == b[k])
  {
    RecordAt(codec, tables, collections, k);
    RecordAt(codec, tables, collections + [c], k);
    TaggedAt(c, Texts(codec, tables[c]), k);
    TextsKeys(codec, tables[c]);
    hide RecordsOf, Tagged, AllUpgradable, Texts, TableUpgradable;
  }

  lemma RecordAt(codec: Codec, tables: map<string, Table>, collections: seq<string>, k: (string, string))
    requires AllUpgradable(codec, tables, collections)
    ensures k in RecordsOf(codec, tables, collections)
       <==> k.0 in collections && k.0 in tables && k.1 in tables[k.0].rows
    ensures k in RecordsOf(codec, tables, collections) ==>
              && TableUpgradable(codec, tables[k.0]) && k.1 in Texts(codec, tables[k.0])
              && RecordsOf(codec, tables, collections)[k] == Texts(codec, tables[k.0])[k.1]
  {
  }

  lemma TaggedAt(c: string, texts: map<string, string>, k: (string, string))
    ensures k in Tagged(c, texts) <==> k.0 == c && k.1 in texts
    ensures k in Tagged(c, texts) ==> Tagged(c, texts)[k] == texts[k.1]
  {
  }

  lemma TextsKeys(codec: Codec, t: Table)
    requires TableUpgradable(codec, t)
    ensures Texts(codec, t).Keys == t.rows.Keys
  {
  }

  /** The records table holding these payload texts for one collection. */
  function Tagged(c: string, texts: map<string, string>): Records {
    map k | k in (set id | id in texts :: (c, id)) :: texts[k.1]
  }

  lemma TaggedNone(records: Records, c: string)
    ensures records + Tagged(c, map[]) == records
  {
  }

  lemma TaggedGrows(records: Records, c: string, texts: map<string, string>, id: string, text: string)
    ensures (records + Tagged(c, texts))[(c, id) := text] == records + Tagged(c, texts[id := text])
  {
    var a, b := (records + Tagged(c, texts))[(c, id) := text], records + Tagged(c, texts[id := text]);
    assert Tagged(c, texts[id := text]) == Tagged(c, texts)[(c, id) := text];
  }
}
