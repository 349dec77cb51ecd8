/** `sync_table`: the SQL statements a migration issues, given their meaning on tables of columns and rows,
    and the proof that they bring the table into sync. */
module SqliteSync {
  import opened Wrappers
  import opened SqliteSchema

  datatype Value = Null | Literal(text: string)

  type Row = map<string, Value>

  datatype Table = Table(cols: seq<ColumnInfo>, rows: seq<Row>)

  type Database = map<string, Table>

  /** A row has a value for each column, and none is missing where the column forbids it. */
  predicate RowFits(cols: seq<ColumnInfo>, row: Row) {
    row.Keys == Names(cols) && forall c :: c in cols && c.notnull ==> c.name in row && row[c.name] != Null
  }

  predicate TableFits(t: Table) {
    Distinct(t.cols) && forall i :: 0 <= i < |t.rows| ==> RowFits(t.cols, t.rows[i])
  }

  // ---------- the mapped table ----------

  datatype ColumnDef = ColumnDef(name: string, typ: string, notNull: bool, dflt: string, isKey: bool)

  /** `key` is the tuple of a composite primary key, in declaration order; empty if there is none. */
  datatype TableDef = TableDef(columns: seq<ColumnDef>, key: seq<string>)

  /** `tuple_helper::iterator` with its default direction: last element first. */
  function TupleOrder(t: seq<string>): (r: seq<string>)
    ensures |r| == |t| && forall i :: 0 <= i < |t| ==> r[i] == t[|t| - 1 - i]
  {
    if t == [] then [] else [t[|t| - 1]] + TupleOrder(t[..|t| - 1])
  }

  predicate DistinctStrings(s: seq<string>) { forall i, j :: 0 <= i < j < |s| ==> s[i] != s[j] }

  /** Distinct columns, a key that names none twice, and declared types as the type printer writes them. SQLite
      demands more: one key only, of existing columns. */
  predicate ValidDef(types: TypeMap, def: TableDef) {
    && |def.columns| < SIZE_VALUES
    && (forall i, j :: 0 <= i < j < |def.columns| ==> def.columns[i].name != def.columns[j].name)
    && (forall i :: 0 <= i < |def.columns| ==> types(def.columns[i].typ).Some?)
    && DistinctStrings(def.key)
  }

  /** The one-based position of the last occurrence of a name, 0 if there is none. */
  function Ordinal(names: seq<string>, n: string): (r: nat) {
    if names == [] then 0
    else if names[|names| - 1] == n then |names|
    else Ordinal(names[..|names| - 1], n)
  }

  function KeyedInfo(c: ColumnDef, names: seq<string>): (r: ColumnInfo) {
    var k := Ordinal(names, c.name);
    ColumnInfo(c.name, c.typ, c.notNull, c.dflt, if k > 0 then k else if c.isKey then 1 else 0)
  }

  function StorageInfo(def: TableDef, names: seq<string>): (r: seq<ColumnInfo>)
    ensures |r| == |def.columns|
  {
    seq(|def.columns|, i requires 0 <= i < |def.columns| => KeyedInfo(def.columns[i], names))
  }

  /** `table_t::get_table_info`: key ordinals are written over the column-level flags. */
  method GetTableInfo(def: TableDef) returns (res: seq<ColumnInfo>)
    requires forall i, j :: 0 <= i < j < |def.columns| ==> def.columns[i].name != def.columns[j].name
    ensures res == StorageInfo(def, TupleOrder(def.key))
  {
    res := [];
    for i := 0 to |def.columns|
      invariant |res| == i && forall j :: 0 <= j < i ==> res[j] == KeyedInfo(def.columns[j], [])
    {
      var c := def.columns[i];
      res := res + [ColumnInfo(c.name, c.typ, c.notNull, c.dflt, if c.isKey then 1 else 0)];
    }
    var names := TupleOrder(def.key);
    assert res == StorageInfo(def, names[..0]);
    for i := 0 to |names|
      invariant res == StorageInfo(def, names[..i])
    {
      var k := FindColumn(res, names[i]);
      assert names[..i + 1][..i] == names[..i];
      ghost var before := res;
      if k < |res| {
        res := res[k := res[k].(pk := i + 1)];
      }
      forall j | 0 <= j < |res| ensures res[j] == KeyedInfo(def.columns[j], names[..i + 1]) {
        assert before[j] == KeyedInfo(def.columns[j], names[..i]);
        if def.columns[j].name == names[i] { assert before[j].name in Names(before); }
      }
    }
    assert names[..|names|] == names;
  }

  // ---------- CREATE TABLE ----------

  datatype CreateStatement = CreateStatement(columns: seq<ColumnDef>, primaryKey: seq<string>)

  /** `serialize_column_schema` of the columns and of the composite key. */
  function Serialize(def: TableDef): (s: CreateStatement) { CreateStatement(def.columns, TupleOrder(def.key)) }

  /** The one-based position of a name in a PRIMARY KEY list, 0 if it is not part of the key. */
  function Position(names: seq<string>, n: string): (r: nat) {
    if names == [] then 0
    else if names[0] == n then 1
    else
      var p := Position(names[1..], n);
      if p == 0 then 0 else p + 1
  }

  /** What `PRAGMA table_info` reports for a table made by a statement. */
  function PragmaInfo(s: CreateStatement): (r: seq<ColumnInfo>) {
    seq(|s.columns|, i requires 0 <= i < |s.columns| =>
      var c := s.columns[i];
      var p := Position(s.primaryKey, c.name);
      ColumnInfo(c.name, c.typ, c.notNull, c.dflt, if p > 0 then p else if c.isKey then 1 else 0))
  }

  lemma {:induction false} PositionOf(names: seq<string>, n: string)
    requires DistinctStrings(names)
    ensures n !in names ==> Position(names, n) == 0 && Ordinal(names, n) == 0
    ensures forall i :: 0 <= i < |names| && names[i] == n ==> Position(names, n) == i + 1 == Ordinal(names, n)
    decreases |names|
  {
    if names != [] {
      PositionTail(names, n);
      OrdinalInit(names, n);
    }
  }

  lemma {:induction false} PositionTail(names: seq<string>, n: string)
    requires DistinctStrings(names) && names != []
    ensures n !in names ==> Position(names, n) == 0
    ensures forall i :: 0 <= i < |names| && names[i] == n ==> Position(names, n) == i + 1
    decreases |names|
  {
    if |names| > 1 {
      PositionTail(names[1..], n);
      assert forall i :: 0 < i < |names| ==> names[i] == names[1..][i - 1];
    }
  }

  lemma {:induction false} OrdinalInit(names: seq<string>, n: string)
    requires DistinctStrings(names) && names != []
    ensures n !in names ==> Ordinal(names, n) == 0
    ensures forall i :: 0 <= i < |names| && names[i] == n ==> Ordinal(names, n) == i + 1
    decreases |names|
  {
    if |names| > 1 {
      OrdinalInit(names[..|names| - 1], n);
    }
  }

  /** A created table reads back as the storage describes it: both number the key in the same direction. */
  lemma {:induction false} CreatedTableAgrees(types: TypeMap, def: TableDef)
    requires ValidDef(types, def)
    ensures PragmaInfo(Serialize(def)) == StorageInfo(def, TupleOrder(def.key))
  {
    var names := TupleOrder(def.key);
    assert DistinctStrings(names);
    forall i | 0 <= i < |def.columns|
      ensures PragmaInfo(Serialize(def))[i] == StorageInfo(def, names)[i]
    {
      PositionOf(names, def.columns[i].name);
      if def.columns[i].name in names {
        var j :| 0 <= j < |names| && names[j] == def.columns[i].name;
      }
    }
  }

  // ---------- the statements ----------

  function SqlCreate(db: Database, name: string, s: CreateStatement): (r: Option<Database>) {
    if name in db then None else Some(db[name := Table(PragmaInfo(s), [])])
  }

  function SqlDrop(db: Database, name: string): (r: Option<Database>) {
    if name !in db then None else Some(db - {name})
  }

  function SqlRename(db: Database, from: string, to: string): (r: Option<Database>) {
    if from !in db || to in db then None else Some((db - {from})[to := db[from]])
  }

  function DefaultOf(c: ColumnInfo): (v: Value) { if c.dflt == [] then Null else Literal(c.dflt) }

  /** ALTER TABLE ADD COLUMN: the name must be new, the column no key, and NOT NULL needs a default. */
  function SqlAddColumn(db: Database, name: string, c: ColumnInfo): (r: Option<Database>) {
    if name !in db || c.name in Names(db[name].cols) || c.pk != 0 || (c.notnull && c.dflt == []) then None
    else
      var t := db[name];
      Some(db[name := Table(t.cols + [c], seq(|t.rows|, i requires 0 <= i < |t.rows| => t.rows[i][c.name := DefaultOf(c)]))])
  }

  /** INSERT INTO to (cs) SELECT cs FROM from: fails on an unknown column or a NULL where it is forbidden. */
  function SqlCopy(db: Database, from: string, to: string, cs: set<string>): (r: Option<Database>) {
    if from !in db || to !in db || !(cs <= Names(db[from].cols)) || Names(db[to].cols) != cs then None
    else
      var rows := seq(|db[from].rows|, i requires 0 <= i < |db[from].rows| =>
        var row := db[from].rows[i];
        map n | n in cs && n in row :: row[n]);
      if forall i :: 0 <= i < |rows| ==> RowFits(db[to].cols, rows[i])
      then Some(db[to := Table(db[to].cols, db[to].rows + rows)]) else None
  }

  // ---------- schema_status ----------

  datatype SyncResult =
    | NewTableCreated | AlreadyInSync | OldColumnsRemoved | NewColumnsAdded
    | NewColumnsAddedAndOldColumnsRemoved | DroppedAndRecreated

  predicate NeedsDefault(c: ColumnInfo) { c.notnull && c.dflt == [] }

  predicate AnyNeedsDefault(cs: seq<ColumnInfo>) { exists i :: 0 <= i < |cs| && NeedsDefault(cs[i]) }

  function Status(types: TypeMap, info: seq<ColumnInfo>, table: Option<Table>, preserve: bool): (r: SyncResult) {
    if table.None? then NewTableCreated
    else
      var cols := table.value.cols;
      var more, less := Missing(info, cols) != [], Excess(info, cols) != [];
      if Conflict(types, info, cols) || (less && !preserve) || AnyNeedsDefault(Missing(info, cols)) then DroppedAndRecreated
      else if more && less then NewColumnsAddedAndOldColumnsRemoved
      else if more then NewColumnsAdded
      else if less then OldColumnsRemoved
      else AlreadyInSync
  }

  // ---------- the status, on columns ----------

  /** Some column exists on both sides with different properties. */
  predicate Differs(types: TypeMap, info: seq<ColumnInfo>, cols: seq<ColumnInfo>) {
    exists i, j :: 0 <= i < |info| && 0 <= j < |cols| && Differ(types, info[i], cols[j])
  }

  /** The table has a column the storage does not name. */
  predicate HasExcess(info: seq<ColumnInfo>, cols: seq<ColumnInfo>) {
    exists j :: 0 <= j < |cols| && cols[j].name !in Names(info)
  }

  /** The storage names a column the table lacks; one that cannot be added for want of a default; a key. */
  predicate Lacks(info: seq<ColumnInfo>, cols: seq<ColumnInfo>) {
    exists i :: 0 <= i < |info| && info[i].name !in Names(cols)
  }

  predicate LacksDefault(info: seq<ColumnInfo>, cols: seq<ColumnInfo>) {
    exists i :: 0 <= i < |info| && info[i].name !in Names(cols) && info[i].notnull && info[i].dflt == []
  }

  predicate LacksKey(info: seq<ColumnInfo>, cols: seq<ColumnInfo>) {
    exists i :: 0 <= i < |info| && info[i].name !in Names(cols) && info[i].pk != 0
  }

  /** Only these make the migration give up the rows. */
  predicate MustRecreate(types: TypeMap, info: seq<ColumnInfo>, cols: seq<ColumnInfo>, preserve: bool) {
    Differs(types, info, cols) || (HasExcess(info, cols) && !preserve) || LacksDefault(info, cols)
  }

  lemma {:induction false} RemainingFrom(cs: seq<ColumnInfo>, names: set<string>, k: nat) returns (i: nat)
    requires k < |Without(cs, names)|
    ensures i < |cs| && cs[i].name !in names && cs[i] == Without(cs, names)[k]
  {
    var c := Without(cs, names)[k];
    WithoutMembers(cs, names);
    assert c in Without(cs, names);
    i :| 0 <= i < |cs| && cs[i] == c;
  }

  lemma {:induction false} RemainingAt(cs: seq<ColumnInfo>, names: set<string>, i: nat) returns (k: nat)
    requires i < |cs| && cs[i].name !in names
    ensures k < |Without(cs, names)| && Without(cs, names)[k] == cs[i]
  {
    WithoutMembers(cs, names);
    assert cs[i] in Without(cs, names);
    k :| 0 <= k < |Without(cs, names)| && Without(cs, names)[k] == cs[i];
  }

  lemma {:induction false} SomeRemain(cs: seq<ColumnInfo>, names: set<string>)
    ensures Without(cs, names) != [] <==> exists i :: 0 <= i < |cs| && cs[i].name !in names
  {
    if Without(cs, names) != [] { var i := RemainingFrom(cs, names, 0); }
    if i: nat :| i < |cs| && cs[i].name !in names { var k := RemainingAt(cs, names, i); }
  }

  lemma {:induction false} RemainingNeedDefault(info: seq<ColumnInfo>, cols: seq<ColumnInfo>)
    ensures AnyNeedsDefault(Missing(info, cols)) <==> LacksDefault(info, cols)
  {
    if AnyNeedsDefault(Missing(info, cols)) {
      var k :| 0 <= k < |Missing(info, cols)| && NeedsDefault(Missing(info, cols)[k]);
      var i := RemainingFrom(info, Names(cols), k);
    }
    if LacksDefault(info, cols) {
      var i :| 0 <= i < |info| && info[i].name !in Names(cols) && info[i].notnull && info[i].dflt == [];
      var k := RemainingAt(info, Names(cols), i);
      assert NeedsDefault(Missing(info, cols)[k]);
    }
  }

  lemma {:induction false} RemainingKey(info: seq<ColumnInfo>, cols: seq<ColumnInfo>)
    ensures (exists c :: c in Missing(info, cols) && c.pk != 0) <==> LacksKey(info, cols)
  {
    if c :| c in Missing(info, cols) && c.pk != 0 {
      var k :| 0 <= k < |Missing(info, cols)| && Missing(info, cols)[k] == c;
      var i := RemainingFrom(info, Names(cols), k);
    }
    if LacksKey(info, cols) {
      var i :| 0 <= i < |info| && info[i].name !in Names(cols) && info[i].pk != 0;
      var k := RemainingAt(info, Names(cols), i);
      assert Missing(info, cols)[k] in Missing(info, cols);
    }
  }

  lemma {:induction false} StatusOnColumns(types: TypeMap, info: seq<ColumnInfo>, t: Table, preserve: bool)
    ensures var s, cols := Status(types, info, Some(t), preserve), t.cols;
            && s != NewTableCreated
            && (s == DroppedAndRecreated <==> MustRecreate(types, info, cols, preserve))
            && (s == NewColumnsAddedAndOldColumnsRemoved <==>
                  !MustRecreate(types, info, cols, preserve) && Lacks(info, cols) && HasExcess(info, cols))
            && (s == NewColumnsAdded <==> !MustRecreate(types, info, cols, preserve) && Lacks(info, cols) && !HasExcess(info, cols))
            && (s == OldColumnsRemoved <==> !MustRecreate(types, info, cols, preserve) && !Lacks(info, cols) && HasExcess(info, cols))
            && (s == AlreadyInSync <==> !Differs(types, info, cols) && !Lacks(info, cols) && !HasExcess(info, cols))
  {
    ConflictMeans(types, info, t.cols);
    SomeRemain(info, Names(t.cols));
    SomeRemain(t.cols, Names(info));
    RemainingNeedDefault(info, t.cols);
  }

  method SchemaStatus(types: TypeMap, info: seq<ColumnInfo>, table: Option<Table>, preserve: bool) returns (res: SyncResult)
    requires Distinct(info) && |info| < SIZE_VALUES && (table.Some? ==> Distinct(table.value.cols))
    ensures res == Status(types, info, table, preserve)
  {
    res := AlreadyInSync;
    if table.None? { return NewTableCreated; }
    var notEqual, toAdd, storage, db := RemoveAddColumns(types, info, table.value.cols);
    var create := notEqual;
    if !create && |db| > 0 {
      if !preserve { create := true; } else { res := OldColumnsRemoved; }
    }
    if create { return DroppedAndRecreated; }
    if |toAdd| > 0 {
      var i := 0;
      while i < |toAdd| && !create
        invariant i <= |toAdd|
        invariant create <==> exists k :: 0 <= k < i && NeedsDefault(storage[k])
      {
        if NeedsDefault(storage[toAdd[i]]) { create := true; }
        i := i + 1;
      }
      if create {
        res := DroppedAndRecreated;
      } else if res == OldColumnsRemoved {
        res := NewColumnsAddedAndOldColumnsRemoved;
      } else {
        res := NewColumnsAdded;
      }
    }
  }

  /** In sync means: the same names on both sides and equal columns for each. */
  lemma {:induction false} InSyncMeans(types: TypeMap, info: seq<ColumnInfo>, t: Table, preserve: bool)
    ensures Status(types, info, Some(t), preserve) == AlreadyInSync <==>
              Names(info) == Names(t.cols) && !Conflict(types, info, t.cols)
  {
    var missing, excess := Missing(info, t.cols), Excess(info, t.cols);
    WithoutMembers(info, Names(t.cols));
    WithoutMembers(t.cols, Names(info));
    if missing != [] {
      assert missing[0] in info;
      NameInNames(info, missing[0]);
    } else {
      forall n | n in Names(info) ensures n in Names(t.cols) {
        var i :| 0 <= i < |info| && info[i].name == n;
        assert info[i] !in missing;
      }
    }
    if excess != [] {
      assert excess[0] in t.cols;
      NameInNames(t.cols, excess[0]);
    } else {
      forall n | n in Names(t.cols) ensures n in Names(info) {
        var i :| 0 <= i < |t.cols| && t.cols[i].name == n;
        assert t.cols[i] !in excess;
      }
    }
  }

  // ---------- the migrations ----------

  /** Every row is still there and has its old value in every column that both tables have. */
  predicate RowsKept(before: Table, after: Table) {
    |before.rows| == |after.rows| && forall i :: 0 <= i < |before.rows| ==> RowKept(before.rows[i], after.rows[i])
  }

  predicate RowKept(before: Row, after: Row) {
    forall n :: n in before && n in after ==> before[n] == after[n]
  }

  lemma {:induction false} AddColumnFits(t: Table, c: ColumnInfo, db: Database, name: string)
    requires TableFits(t) && name in db && db[name] == t && SqlAddColumn(db, name, c).Some?
    ensures var u := SqlAddColumn(db, name, c).value[name]; TableFits(u) && RowsKept(t, u) && u.cols == t.cols + [c]
  {
    var u := SqlAddColumn(db, name, c).value[name];
    NamesSnoc(t.cols, c);
    forall i | 0 <= i < |t.cols| ensures t.cols[i].name != c.name {
      NameInNames(t.cols, t.cols[i]);
    }
    forall i | 0 <= i < |u.rows| ensures RowFits(u.cols, u.rows[i]) && RowKept(t.rows[i], u.rows[i]) {
      assert RowFits(t.cols, t.rows[i]);
      assert u.rows[i] == t.rows[i][c.name := DefaultOf(c)];
      assert u.rows[i].Keys == t.rows[i].Keys + {c.name};
      forall d | d in u.cols && d.notnull ensures d.name in u.rows[i] && u.rows[i][d.name] != Null {
        if d in t.cols { NameInNames(t.cols, d); }
      }
    }
  }

  /** What SQLite accepts as further columns: no keys, a default where NULL is forbidden, and new names. */
  predicate Addable(cols: seq<ColumnInfo>, cs: seq<ColumnInfo>) {
    forall i :: 0 <= i < |cs| ==> cs[i].pk == 0 && !NeedsDefault(cs[i]) && cs[i].name !in Names(cols + cs[..i])
  }

  /** The columns before the first refused one were added, and no more. */
  predicate AddedUpTo(cols: seq<ColumnInfo>, cs: seq<ColumnInfo>, now: seq<ColumnInfo>) {
    exists i :: 0 <= i < |cs| && StoppedAt(cols, cs, now, i)
  }

  predicate StoppedAt(cols: seq<ColumnInfo>, cs: seq<ColumnInfo>, now: seq<ColumnInfo>, i: nat)
    requires i < |cs|
  {
    && now == cols + cs[..i]
    && (forall j :: 0 <= j < i ==> cs[j].pk == 0 && !NeedsDefault(cs[j]) && cs[j].name !in Names(cols + cs[..j]))
    && (cs[i].pk != 0 || NeedsDefault(cs[i]) || cs[i].name in Names(cols + cs[..i]))
  }

  /** The loop of ADD COLUMN statements, which ends with the first one refused. */
  method AddColumns(db0: Database, name: string, cs: seq<ColumnInfo>) returns (ok: bool, db: Database)
    requires name in db0 && TableFits(db0[name])
    ensures ok <==> Addable(db0[name].cols, cs)
    ensures db.Keys == db0.Keys && (forall n :: n in db && n != name ==> db[n] == db0[n])
    ensures ok ==> db[name].cols == db0[name].cols + cs
    ensures !ok ==> AddedUpTo(db0[name].cols, cs, db[name].cols)
    ensures TableFits(db[name]) && RowsKept(db0[name], db[name])
  {
    ok, db := true, db0;
    ghost var t := db0[name];
    for i := 0 to |cs|
      invariant db.Keys == db0.Keys && (forall n :: n in db && n != name ==> db[n] == db0[n])
      invariant db[name].cols == t.cols + cs[..i] && TableFits(db[name]) && RowsKept(t, db[name])
      invariant forall j :: 0 <= j < i ==> cs[j].pk == 0 && !NeedsDefault(cs[j]) && cs[j].name !in Names(t.cols + cs[..j])
    {
      var next := SqlAddColumn(db, name, cs[i]);
      if next.None? {
        assert StoppedAt(t.cols, cs, db[name].cols, i);
        return false, db;
      }
      AddColumnFits(db[name], cs[i], db, name);
      NamesPrefix(t.cols, cs[..i]);
      RowsKeptTrans(t, db[name], next.value[name]);
      assert cs[..i + 1] == cs[..i] + [cs[i]];
      assert t.cols + cs[..i + 1] == t.cols + cs[..i] + [cs[i]];
      db := next.value;
    }
    assert cs[..|cs|] == cs;
  }

  /** Distinct columns the table lacks, with defaults where needed, can be added exactly if none is a key. */
  lemma {:induction false} AddableUnlessKey(cols: seq<ColumnInfo>, cs: seq<ColumnInfo>)
    requires Distinct(cs) && !AnyNeedsDefault(cs) && forall c :: c in cs ==> c.name !in Names(cols)
    ensures Addable(cols, cs) <==> forall c :: c in cs ==> c.pk == 0
  {
    forall i | 0 <= i < |cs| ensures cs[i].name !in Names(cols + cs[..i]) && !NeedsDefault(cs[i]) {
      NewName(cols, cs, i);
    }
  }

  lemma {:induction false} NamesPrefix(a: seq<ColumnInfo>, b: seq<ColumnInfo>)
    ensures Names(a) <= Names(a + b)
  {
    forall n | n in Names(a) ensures n in Names(a + b) {
      var i :| 0 <= i < |a| && a[i].name == n;
      assert (a + b)[i].name == n;
    }
  }

  lemma {:induction false} NewName(base: seq<ColumnInfo>, cs: seq<ColumnInfo>, i: nat)
    requires Distinct(cs) && i < |cs| && forall c :: c in cs ==> c.name !in Names(base)
    ensures cs[i].name !in Names(base + cs[..i])
  {
    var all := base + cs[..i];
    forall j | 0 <= j < |all| ensures all[j].name != cs[i].name {
      if j < |base| {
        NameInNames(base, base[j]);
      } else {
        assert all[j] == cs[j - |base|];
      }
    }
  }

  /** Between tables of growing columns, keeping rows composes. */
  lemma {:induction false} RowsKeptTrans(a: Table, b: Table, c: Table)
    requires TableFits(a) && TableFits(b) && Names(a.cols) <= Names(b.cols) && RowsKept(a, b) && RowsKept(b, c)
    ensures RowsKept(a, c)
  {
    forall i | 0 <= i < |a.rows| ensures RowKept(a.rows[i], c.rows[i]) {
      assert RowKept(a.rows[i], b.rows[i]) && RowKept(b.rows[i], c.rows[i]);
      assert RowFits(a.cols, a.rows[i]) && RowFits(b.cols, b.rows[i]);
    }
  }

  function Decimal(n: nat): (s: string)
    ensures s != []
  {
    var digit := [(n % 10 + 48) as char];
    if n < 10 then digit else Decimal(n / 10) + digit
  }

  lemma {:induction false} DecimalInjective(m: nat, n: nat)
    requires Decimal(m) == Decimal(n)
    ensures m == n
    decreases m
  {
    var s, t := Decimal(m), Decimal(n);
    assert s[|s| - 1] == (m % 10 + 48) as char && t[|t| - 1] == (n % 10 + 48) as char;
    assert m % 10 == n % 10;
    if m >= 10 && n >= 10 {
      assert Decimal(m / 10) == s[..|s| - 1] && Decimal(n / 10) == t[..|t| - 1];
      DecimalInjective(m / 10, n / 10);
    }
  }

  /** The name of the backup table: numbers are tried until one is free, which finitely many tables allow. */
  method FreeName(db: Database, base: string) returns (r: string)
    ensures r !in db
  {
    r := base;
    if r !in db { return; }
    var suffix := 1;
    ghost var tried: set<string> := {};
    r := base + Decimal(suffix);
    while r in db
      invariant suffix >= 1 && r == base + Decimal(suffix)
      invariant tried <= db.Keys
      invariant forall s :: s in tried ==> exists k: nat :: 1 <= k < suffix && s == base + Decimal(k)
      decreases db.Keys - tried
    {
      if r in tried {
        var k: nat :| 1 <= k < suffix && r == base + Decimal(k);
        assert Decimal(k) == r[|base|..] == Decimal(suffix);
        DecimalInjective(k, suffix);
      }
      tried := tried + {r};
      suffix := suffix + 1;
      r := base + Decimal(suffix);
    }
  }

  function Project(row: Row, names: set<string>): (r: Row) { map n | n in names && n in row :: row[n] }

  /** Without conflicting columns, the old rows restricted to the storage columns fit the new table. */
  lemma {:induction false} ProjectedRowFits(types: TypeMap, info: seq<ColumnInfo>, t: Table, i: nat)
    requires Distinct(info) && TableFits(t) && i < |t.rows|
    requires Names(info) <= Names(t.cols) && !Conflict(types, info, t.cols)
    ensures RowFits(info, Project(t.rows[i], Names(info)))
  {
    var row := t.rows[i];
    assert RowFits(t.cols, row);
    assert Project(row, Names(info)).Keys == Names(info);
    forall c | c in info && c.notnull ensures c.name in row && row[c.name] != Null && c.name in Names(info) {
      NameInNames(info, c);
      var k :| 0 <= k < |t.cols| && t.cols[k].name == c.name;
      assert t.cols[k] in t.cols && ColumnsEqual(types, t.cols[k], c);
    }
  }

  /** `backup_table`. The copy names every storage column, so it fails exactly when the old table lacks one;
      the new table under the backup name is then left behind. */
  method BackupTable(types: TypeMap, def: TableDef, name: string, db0: Database) returns (ok: bool, db: Database)
    requires ValidDef(types, def) && name in db0 && TableFits(db0[name])
    requires !Conflict(types, StorageInfo(def, TupleOrder(def.key)), db0[name].cols)
    ensures ok <==> Names(StorageInfo(def, TupleOrder(def.key))) <= Names(db0[name].cols)
    ensures ok ==> db.Keys == db0.Keys && (forall n :: n in db && n != name ==> db[n] == db0[n])
    ensures ok ==> db[name].cols == StorageInfo(def, TupleOrder(def.key)) && TableFits(db[name]) && RowsKept(db0[name], db[name])
    ensures !ok ==> exists b :: b !in db0 && db == db0[b := Table(StorageInfo(def, TupleOrder(def.key)), [])]
  {
    ghost var t := db0[name];
    ghost var info := StorageInfo(def, TupleOrder(def.key));
    InfoDistinct(def, TupleOrder(def.key));
    CreatedTableAgrees(types, def);
    var backup := FreeName(db0, name + "_backup");
    assert backup != name;
    var created := SqlCreate(db0, backup, Serialize(def));
    db := created.value;
    var names := set c | c in def.columns :: c.name;
    assert names == Names(info) by { NamesOfDef(def, TupleOrder(def.key)); }
    var copied := SqlCopy(db, name, backup, names);
    if names <= Names(db0[name].cols) {
      forall i | 0 <= i < |t.rows| ensures RowFits(info, Project(t.rows[i], names)) {
        ProjectedRowFits(types, info, t, i);
      }
      CopySucceeds(db, name, backup, names);
    }
    if copied.None? { return false, db; }
    var dropped := SqlDrop(copied.value, name);
    var renamed := SqlRename(dropped.value, backup, name);
    ok, db := true, renamed.value;
  }

  lemma {:induction false} CopySucceeds(db: Database, from: string, to: string, names: set<string>)
    requires from in db && to in db && from != to && names <= Names(db[from].cols) && Names(db[to].cols) == names
    requires db[to].rows == []
    requires forall i :: 0 <= i < |db[from].rows| ==> RowFits(db[to].cols, Project(db[from].rows[i], names))
    ensures SqlCopy(db, from, to, names).Some?
    ensures var u := SqlCopy(db, from, to, names).value;
            && u.Keys == db.Keys && (forall n :: n in db && n != to ==> u[n] == db[n])
            && u[to].cols == db[to].cols && RowsKept(db[from], u[to])
  {
    var rows := seq(|db[from].rows|, i requires 0 <= i < |db[from].rows| =>
      var row := db[from].rows[i];
      map n | n in names && n in row :: row[n]);
    forall i | 0 <= i < |rows| ensures RowFits(db[to].cols, rows[i]) && RowKept(db[from].rows[i], rows[i]) {
      assert rows[i] == Project(db[from].rows[i], names);
    }
    assert db[to].rows + rows == rows;
  }

  lemma {:induction false} InfoDistinct(def: TableDef, names: seq<string>)
    requires forall i, j :: 0 <= i < j < |def.columns| ==> def.columns[i].name != def.columns[j].name
    ensures Distinct(StorageInfo(def, names))
  {
    var info := StorageInfo(def, names);
    assert forall i :: 0 <= i < |info| ==> info[i].name == def.columns[i].name;
  }

  lemma {:induction false} NamesOfDef(def: TableDef, names: seq<string>)
    ensures (set c | c in def.columns :: c.name) == Names(StorageInfo(def, names))
  {
    var info := StorageInfo(def, names);
    forall n | n in (set c | c in def.columns :: c.name) ensures n in Names(info) {
      var c :| c in def.columns && c.name == n;
      var i :| 0 <= i < |def.columns| && def.columns[i] == c;
      assert info[i].name == n;
    }
    forall n | n in Names(info) ensures n in (set c | c in def.columns :: c.name) {
      var i :| 0 <= i < |info| && info[i].name == n;
      assert def.columns[i] in def.columns;
    }
  }

  // ---------- sync_table ----------

  function TableOf(db: Database, name: string): (t: Option<Table>) { if name in db then Some(db[name]) else None }

  predicate KnownTypes(types: TypeMap, info: seq<ColumnInfo>) {
    forall c :: c in info ==> types(c.typ).Some?
  }

  /** A table with exactly the storage columns is in sync. */
  lemma {:induction false} CreatedInSync(types: TypeMap, info: seq<ColumnInfo>, t: Table, preserve: bool)
    requires Distinct(info) && KnownTypes(types, info) && t.cols == info
    ensures Status(types, info, Some(t), preserve) == AlreadyInSync
  {
    InSyncMeans(types, info, t, preserve);
    forall s, d | s in info && d in info && s.name == d.name ensures ColumnsEqual(types, d, s) {
      SameName(info, d);
    }
  }

  lemma {:induction false} ExtendedAgrees(types: TypeMap, info: seq<ColumnInfo>, before: seq<ColumnInfo>, after: seq<ColumnInfo>)
    requires Distinct(info) && KnownTypes(types, info) && !Conflict(types, info, before)
    requires after == before + Missing(info, before)
    ensures !Conflict(types, info, after)
  {
    WithoutMembers(info, Names(before));
    forall s, d | s in info && d in after && s.name == d.name ensures ColumnsEqual(types, d, s) {
      if d in Missing(info, before) {
        SameName(info, d);
      } else {
        assert d in before;
      }
    }
  }

  lemma {:induction false} ExtendedHasAll(info: seq<ColumnInfo>, before: seq<ColumnInfo>, added: seq<ColumnInfo>)
    requires added == Missing(info, before)
    ensures Names(info) <= Names(before + added)
  {
    WithoutMembers(info, Names(before));
    forall n | n in Names(info) ensures n in Names(before + added) {
      var i :| 0 <= i < |info| && info[i].name == n;
      if n in Names(before) {
        NamesPrefix(before, added);
      } else {
        assert info[i] in added;
        NameInNames(before + added, info[i]);
      }
    }
  }

  lemma {:induction false} ExtendedHasNoMore(info: seq<ColumnInfo>, before: seq<ColumnInfo>, added: seq<ColumnInfo>)
    requires Excess(info, before) == [] && added == Missing(info, before)
    ensures Names(before + added) <= Names(info)
  {
    WithoutMembers(info, Names(before));
    WithoutMembers(before, Names(info));
    forall n | n in Names(before + added) ensures n in Names(info) {
      var i :| 0 <= i < |before + added| && (before + added)[i].name == n;
      if i < |before| {
        assert before[i] !in Excess(info, before);
      } else {
        assert added[i - |before|] in info;
        NameInNames(info, added[i - |before|]);
      }
    }
  }

  /** So is a table without excess or conflicting columns to which the missing columns were added. */
  lemma {:induction false} ExtendedInSync(types: TypeMap, info: seq<ColumnInfo>, before: Table, after: Table, preserve: bool)
    requires Distinct(info) && KnownTypes(types, info) && !Conflict(types, info, before.cols)
    requires Excess(info, before.cols) == [] && after.cols == before.cols + Missing(info, before.cols)
    ensures Status(types, info, Some(after), preserve) == AlreadyInSync
  {
    ExtendedAgrees(types, info, before.cols, after.cols);
    ExtendedHasAll(info, before.cols, Missing(info, before.cols));
    ExtendedHasNoMore(info, before.cols, Missing(info, before.cols));
    InSyncMeans(types, info, after, preserve);
  }

  /** The two migrations SQLite refuses: adding a key column, and copying columns the old table lacks. */
  predicate Refused(types: TypeMap, info: seq<ColumnInfo>, table: Option<Table>, preserve: bool) {
    var status := Status(types, info, table, preserve);
    || status == NewColumnsAddedAndOldColumnsRemoved
    || (status == NewColumnsAdded && exists c :: c in Missing(info, table.value.cols) && c.pk != 0)
  }

  lemma {:induction false} OnlySecondDiffers(a: ColumnInfo, b: ColumnInfo, names: set<string>)
    requires a.name in names && b.name !in names
    ensures Without([a, b], names) == [b]
  {
    assert [a, b] == [a] + [b] && [a] == [] + [a];
    WithoutSnoc([a], b, names);
    WithoutSnoc([], a, names);
  }

  lemma {:induction false} NamesOfTwo(a: ColumnInfo, b: ColumnInfo)
    ensures Names([a, b]) == {a.name, b.name}
  {
    NameInNames([a, b], a);
    NameInNames([a, b], b);
  }

  /** With preserve set, renaming a column is such a migration: the new name is missing, the old one is excess. */
  lemma {:induction false} RenamedColumnIsRefused(types: TypeMap, a: ColumnInfo, b: ColumnInfo, c: ColumnInfo)
    requires a.name != b.name && a.name != c.name && b.name != c.name
    requires types(a.typ).Some? && !b.notnull
    ensures Refused(types, [a, b], Some(Table([a, c], [])), true)
  {
    NamesOfTwo(a, b);
    NamesOfTwo(a, c);
    OnlySecondDiffers(a, b, Names([a, c]));
    OnlySecondDiffers(a, c, Names([a, b]));
  }

  lemma {:induction false} NamesOfOne(a: ColumnInfo)
    ensures Names([a]) == {a.name}
  {
    NameInNames([a], a);
  }

  /** A nullable key column that the table lacks is the other one, with preserve or without. */
  lemma {:induction false} AddedKeyIsRefused(types: TypeMap, a: ColumnInfo, b: ColumnInfo, preserve: bool)
    requires a.name != b.name && types(a.typ).Some? && !b.notnull && b.pk != 0
    ensures Refused(types, [a, b], Some(Table([a], [])), preserve)
  {
    NamesOfTwo(a, b);
    NamesOfOne(a);
    OnlySecondDiffers(a, b, Names([a]));
    assert [a] == [] + [a];
    WithoutSnoc([], a, Names([a, b]));
    assert b in Missing([a, b], [a]);
  }

  /** The columns the diff saves pointers to. */
  method ColumnsToAdd(types: TypeMap, info: seq<ColumnInfo>, cols: seq<ColumnInfo>) returns (columns: seq<ColumnInfo>)
    requires Distinct(info) && |info| < SIZE_VALUES && Distinct(cols) && !Conflict(types, info, cols)
    ensures columns == Missing(info, cols)
  {
    var notEqual, toAdd, storage, rest := RemoveAddColumns(types, info, cols);
    columns := seq(|toAdd|, i requires 0 <= i < |toAdd| => storage[toAdd[i]]);
  }

  /** The branch of `sync_table` that adds the missing columns. */
  method ExtendTable(types: TypeMap, info: seq<ColumnInfo>, name: string, db0: Database, preserve: bool) returns (ok: bool, db: Database)
    requires Distinct(info) && KnownTypes(types, info) && |info| < SIZE_VALUES && name in db0 && TableFits(db0[name])
    requires !Conflict(types, info, db0[name].cols) && Excess(info, db0[name].cols) == []
    requires !AnyNeedsDefault(Missing(info, db0[name].cols))
    ensures ok <==> forall c :: c in Missing(info, db0[name].cols) ==> c.pk == 0
    ensures db.Keys == db0.Keys && (forall n :: n in db && n != name ==> db[n] == db0[n])
    ensures RowsKept(db0[name], db[name]) && (ok ==> Status(types, info, Some(db[name]), preserve) == AlreadyInSync)
    ensures !ok ==> AddedUpTo(db0[name].cols, Missing(info, db0[name].cols), db[name].cols)
  {
    var columns := ColumnsToAdd(types, info, db0[name].cols);
    WithoutDistinct(info, Names(db0[name].cols));
    WithoutMembers(info, Names(db0[name].cols));
    AddableUnlessKey(db0[name].cols, columns);
    ok, db := AddColumns(db0, name, columns);
    if ok { ExtendedInSync(types, info, db0[name], db[name], preserve); }
  }

  /** Nothing changed but for an empty table of the storage columns under a new name. */
  ghost predicate LeftBehind(db0: Database, db: Database, info: seq<ColumnInfo>) {
    exists b :: b !in db0 && db == db0[b := Table(info, [])]
  }

  /** A column that is already there is refused at once. */
  lemma {:induction false} RefusedAtOnce(cols: seq<ColumnInfo>, cs: seq<ColumnInfo>, now: seq<ColumnInfo>)
    requires cs != [] && cs[0] in cols && (Addable(cols, cs) ==> now == cols + cs) && (!Addable(cols, cs) ==> AddedUpTo(cols, cs, now))
    ensures !Addable(cols, cs) && now == cols
  {
    NameInNames(cols, cs[0]);
    assert cols + cs[..0] == cols;
    var i :| 0 <= i < |cs| && StoppedAt(cols, cs, now, i);
    assert i == 0;
  }

  lemma {:induction false} RowsKeptSame(a: Table, b: Table, c: Table)
    requires RowsKept(a, b) && RowsKept(b, c) && b.cols == c.cols && TableFits(b) && TableFits(c)
    ensures RowsKept(a, c)
  {
    forall i | 0 <= i < |a.rows| ensures RowKept(a.rows[i], c.rows[i]) {
      assert RowKept(a.rows[i], b.rows[i]) && RowKept(b.rows[i], c.rows[i]);
      assert RowFits(b.cols, b.rows[i]) && RowFits(c.cols, c.rows[i]);
    }
  }

  /** The branch that rebuilds the table and then adds `columns`. A rebuilt table has all storage columns, so
      that whatever is to be added is already there: it succeeds only with nothing to add. */
  method RebuildAndAdd(types: TypeMap, def: TableDef, name: string, db0: Database, columns: seq<ColumnInfo>) returns (ok: bool, db: Database)
    requires ValidDef(types, def) && name in db0 && TableFits(db0[name])
    requires !Conflict(types, StorageInfo(def, TupleOrder(def.key)), db0[name].cols)
    requires forall c :: c in columns ==> c in StorageInfo(def, TupleOrder(def.key))
    ensures ok <==> columns == [] && Names(StorageInfo(def, TupleOrder(def.key))) <= Names(db0[name].cols)
    ensures forall n :: n in db0 && n != name ==> n in db && db[n] == db0[n]
    ensures !(Names(StorageInfo(def, TupleOrder(def.key))) <= Names(db0[name].cols)) ==> LeftBehind(db0, db, StorageInfo(def, TupleOrder(def.key)))
    ensures Names(StorageInfo(def, TupleOrder(def.key))) <= Names(db0[name].cols) ==>
              db.Keys == db0.Keys && db[name].cols == StorageInfo(def, TupleOrder(def.key)) && RowsKept(db0[name], db[name])
  {
    ghost var info := StorageInfo(def, TupleOrder(def.key));
    ok, db := BackupTable(types, def, name, db0);
    if ok {
      ghost var before := db[name];
      ghost var rebuilt := before.cols;
      ok, db := AddColumns(db, name, columns);
      if columns != [] {
        RefusedAtOnce(info, columns, db[name].cols);
      } else {
        assert rebuilt + columns == rebuilt;
      }
      RowsKeptSame(db0[name], before, db[name]);
    }
  }

  /** The result of the migration of an existing table, read off its columns and those of the storage. */
  predicate ResultOnColumns(types: TypeMap, info: seq<ColumnInfo>, cols: seq<ColumnInfo>, preserve: bool, res: Option<SyncResult>) {
    var recreate, more, less := MustRecreate(types, info, cols, preserve), Lacks(info, cols), HasExcess(info, cols);
    && (res == Some(DroppedAndRecreated) <==> recreate)
    && (res == Some(OldColumnsRemoved) <==> !recreate && !more && less)
    && (res == Some(NewColumnsAdded) <==> !recreate && more && !less && !LacksKey(info, cols))
    && (res == Some(AlreadyInSync) <==> !recreate && !more && !less)
    && (res == None <==> !recreate && more && (less || LacksKey(info, cols)))
  }

  /** The table has the columns of the storage, and none differs from its counterpart. */
  predicate SameColumns(types: TypeMap, info: seq<ColumnInfo>, cols: seq<ColumnInfo>) {
    Names(info) == Names(cols) && !Differs(types, info, cols)
  }

  lemma {:induction false} InSyncIsSame(types: TypeMap, info: seq<ColumnInfo>, t: Table, preserve: bool)
    ensures Status(types, info, Some(t), preserve) == AlreadyInSync <==> SameColumns(types, info, t.cols)
  {
    InSyncMeans(types, info, t, preserve);
    ConflictMeans(types, info, t.cols);
  }

  /** What `sync_table` returns for an existing table. */
  function Outcome(types: TypeMap, info: seq<ColumnInfo>, t: Table, preserve: bool): (r: Option<SyncResult>) {
    if Refused(types, info, Some(t), preserve) then None else Some(Status(types, info, Some(t), preserve))
  }

  lemma {:induction false} OutcomeOnColumns(types: TypeMap, info: seq<ColumnInfo>, t: Table, preserve: bool)
    ensures ResultOnColumns(types, info, t.cols, preserve, Outcome(types, info, t, preserve))
    ensures Status(types, info, Some(t), preserve) == DroppedAndRecreated <==> MustRecreate(types, info, t.cols, preserve)
    ensures Status(types, info, Some(t), preserve) != NewTableCreated
  {
    StatusOnColumns(types, info, t, preserve);
    RemainingKey(info, t.cols);
  }

  /** The statements a status calls for; false is an exception from SQLite. */
  method Migrate(types: TypeMap, def: TableDef, name: string, db0: Database, status: SyncResult, preserve: bool) returns (ok: bool, db: Database)
    requires ValidDef(types, def) && (name in db0 ==> TableFits(db0[name]))
    requires status == Status(types, StorageInfo(def, TupleOrder(def.key)), TableOf(db0, name), preserve)
    ensures ok <==> !Refused(types, StorageInfo(def, TupleOrder(def.key)), TableOf(db0, name), preserve)
    ensures ok ==> db.Keys == db0.Keys + {name}
    ensures ok ==> Status(types, StorageInfo(def, TupleOrder(def.key)), Some(db[name]), preserve) == AlreadyInSync
    ensures ok && name in db0 && status != DroppedAndRecreated ==> RowsKept(db0[name], db[name])
    ensures ok && status in {DroppedAndRecreated, NewTableCreated} ==> db[name].rows == []
    ensures !ok ==> name in db0 && LeftByRefusal(db0, db, name, StorageInfo(def, TupleOrder(def.key)), status)
    ensures forall n :: n in db0 && n != name ==> n in db && db[n] == db0[n]
  {
    ok, db := true, db0;
    var info := GetTableInfo(def);
    InfoDistinct(def, TupleOrder(def.key));
    CreatedTableAgrees(types, def);
    assert KnownTypes(types, info);
    match status {
      case AlreadyInSync =>
      case NewTableCreated =>
        db := SqlCreate(db, name, Serialize(def)).value;
        CreatedInSync(types, info, db[name], preserve);
      case DroppedAndRecreated =>
        db := SqlDrop(db, name).value;
        db := SqlCreate(db, name, Serialize(def)).value;
        CreatedInSync(types, info, db[name], preserve);
      case OldColumnsRemoved =>
        ok, db := BackupTable(types, def, name, db);
        MissingNames(info, db0[name].cols);
        CreatedInSync(types, info, db[name], preserve);
      case NewColumnsAdded =>
        ok, db := ExtendTable(types, info, name, db, preserve);
      case NewColumnsAddedAndOldColumnsRemoved =>
        var columns := ColumnsToAdd(types, info, db0[name].cols);
        WithoutMembers(info, Names(db0[name].cols));
        MissingNames(info, db0[name].cols);
        ok, db := RebuildAndAdd(types, def, name, db, columns);
    }
  }

  /** What a refused migration leaves: the columns added before the key, or an empty backup table. */
  ghost predicate LeftByRefusal(db0: Database, db: Database, name: string, info: seq<ColumnInfo>, status: SyncResult)
    requires name in db0
  {
    if status == NewColumnsAdded then
      && db.Keys == db0.Keys && RowsKept(db0[name], db[name])
      && AddedUpTo(db0[name].cols, Missing(info, db0[name].cols), db[name].cols)
    else LeftBehind(db0, db, info)
  }

  /** `sync_table`; None is an exception from SQLite. With preserve set, no differing column and a default for
      every missing NOT NULL column, a call that succeeds keeps every row. */
  method SyncTable(types: TypeMap, def: TableDef, name: string, db0: Database, preserve: bool)
    returns (res: Option<SyncResult>, db: Database)
    requires ValidDef(types, def) && (name in db0 ==> TableFits(db0[name]))
    ensures res.Some? ==> db.Keys == db0.Keys + {name}
    ensures res.Some? ==> SameColumns(types, StorageInfo(def, TupleOrder(def.key)), db[name].cols)
    ensures name !in db0 <==> res == Some(NewTableCreated)
    ensures name in db0 ==> ResultOnColumns(types, StorageInfo(def, TupleOrder(def.key)), db0[name].cols, preserve, res)
    ensures name in db0 && res.Some? && !MustRecreate(types, StorageInfo(def, TupleOrder(def.key)), db0[name].cols, preserve) ==>
              RowsKept(db0[name], db[name])
    ensures res == Some(DroppedAndRecreated) || res == Some(NewTableCreated) ==> db[name].rows == []
    ensures res.None? ==> LeftByRefusal(db0, db, name, StorageInfo(def, TupleOrder(def.key)),
                                        Status(types, StorageInfo(def, TupleOrder(def.key)), Some(db0[name]), preserve))
    ensures res.Some? ==> Status(types, StorageInfo(def, TupleOrder(def.key)), Some(db[name]), preserve) == AlreadyInSync
    ensures res == if Refused(types, StorageInfo(def, TupleOrder(def.key)), TableOf(db0, name), preserve) then None
                   else Some(Status(types, StorageInfo(def, TupleOrder(def.key)), TableOf(db0, name), preserve))
    ensures forall n :: n in db0 && n != name ==> n in db && db[n] == db0[n]
  {
    var info := GetTableInfo(def);
    InfoDistinct(def, TupleOrder(def.key));
    if name in db0 { OutcomeOnColumns(types, info, db0[name], preserve); }
    var status := SchemaStatus(types, info, TableOf(db0, name), preserve);
    var ok;
    ok, db := Migrate(types, def, name, db0, status, preserve);
    res := if ok then Some(status) else None;
    if ok { InSyncIsSame(types, info, db[name], preserve); }
  }

  lemma {:induction false} MissingNames(info: seq<ColumnInfo>, cols: seq<ColumnInfo>)
    ensures Missing(info, cols) == [] <==> Names(info) <= Names(cols)
  {
    var missing := Missing(info, cols);
    WithoutMembers(info, Names(cols));
    if missing != [] {
      assert missing[0] in info;
      NameInNames(info, missing[0]);
    } else {
      forall n | n in Names(info) ensures n in Names(cols) {
        var i :| 0 <= i < |info| && info[i].name == n;
        assert info[i] !in missing;
      }
    }
  }
}
