/** The schema synchroniser: the column diff that erases from both lists in place, the migration decision
    and the statements that carry it out. */
module SqliteSchema {
  import opened Wrappers

  datatype SqliteType = INTEGER | TEXT | BLOB | REAL

  /** `to_sqlite_type` is a parameter: everything below holds for any classification of declared types. */
  type TypeMap = string -> Option<SqliteType>

  datatype ColumnInfo = ColumnInfo(name: string, typ: string, notnull: bool, dflt: string, pk: nat)

  predicate Distinct(cs: seq<ColumnInfo>) {
    forall i, j :: 0 <= i < j < |cs| ==> cs[i].name != cs[j].name
  }

  function Names(cs: seq<ColumnInfo>): (r: set<string>) {
    set i | 0 <= i < |cs| :: cs[i].name
  }

  /** The comparison of two columns of one name; unknown types never compare equal. */
  predicate ColumnsEqual(types: TypeMap, d: ColumnInfo, s: ColumnInfo) {
    && types(d.typ).Some? && types(s.typ).Some?
    && d.name == s.name && types(d.typ) == types(s.typ) && d.notnull == s.notnull
    && (d.dflt != [] <==> s.dflt != []) && d.pk == s.pk
  }

  // ---------- reference definitions of the diff ----------

  /** The columns of `cs` whose name is not in `names`, in order. */
  function Without(cs: seq<ColumnInfo>, names: set<string>): (r: seq<ColumnInfo>) {
    if cs == [] then []
    else
      var rest, c := Without(cs[..|cs| - 1], names), cs[|cs| - 1];
      if c.name in names then rest else rest + [c]
  }

  lemma {:induction false} WithoutMembers(cs: seq<ColumnInfo>, names: set<string>)
    ensures forall c :: c in Without(cs, names) <==> c in cs && c.name !in names
  {
    if cs != [] {
      WithoutMembers(cs[..|cs| - 1], names);
      assert cs == cs[..|cs| - 1] + [cs[|cs| - 1]];
    }
  }

  function Missing(storage: seq<ColumnInfo>, db: seq<ColumnInfo>): (r: seq<ColumnInfo>) { Without(storage, Names(db)) }

  function Excess(storage: seq<ColumnInfo>, db: seq<ColumnInfo>): (r: seq<ColumnInfo>) { Without(db, Names(storage)) }

  /** Some column exists on both sides with different properties. */
  predicate Conflict(types: TypeMap, storage: seq<ColumnInfo>, db: seq<ColumnInfo>) {
    exists s, d :: s in storage && d in db && s.name == d.name && !ColumnsEqual(types, d, s)
  }

  /** What makes two columns of one name a mismatch: a declared type of no known class, another class of type,
      nullability, presence of a default, or position in the key. The text of a default does not matter. */
  predicate Differ(types: TypeMap, s: ColumnInfo, d: ColumnInfo) {
    && s.name == d.name
    && (types(s.typ).None? || types(d.typ).None? || types(s.typ) != types(d.typ)
        || s.notnull != d.notnull || (s.dflt == []) != (d.dflt == []) || s.pk != d.pk)
  }

  lemma {:induction false} ConflictMeans(types: TypeMap, storage: seq<ColumnInfo>, db: seq<ColumnInfo>)
    ensures Conflict(types, storage, db) <==> exists i, j :: 0 <= i < |storage| && 0 <= j < |db| && Differ(types, storage[i], db[j])
  {
    if Conflict(types, storage, db) {
      var s, d :| s in storage && d in db && s.name == d.name && !ColumnsEqual(types, d, s);
      var i :| 0 <= i < |storage| && storage[i] == s;
      var j :| 0 <= j < |db| && db[j] == d;
      assert Differ(types, storage[i], db[j]);
    }
    if i, j :| 0 <= i < |storage| && 0 <= j < |db| && Differ(types, storage[i], db[j]) {
      assert storage[i] in storage && db[j] in db && !ColumnsEqual(types, db[j], storage[i]);
    }
  }

  lemma {:induction false} WithoutNothing(cs: seq<ColumnInfo>)
    ensures Without(cs, {}) == cs
  {
    if cs != [] {
      WithoutNothing(cs[..|cs| - 1]);
      assert cs == cs[..|cs| - 1] + [cs[|cs| - 1]];
    }
  }

  lemma {:induction false} WithoutTwice(cs: seq<ColumnInfo>, a: set<string>, b: set<string>)
    ensures Without(Without(cs, a), b) == Without(cs, a + b)
  {
    if cs != [] {
      WithoutTwice(cs[..|cs| - 1], a, b);
      var rest, c := Without(cs[..|cs| - 1], a), cs[|cs| - 1];
      if c.name !in a { assert (rest + [c])[..|rest|] == rest; }
    }
  }

  lemma {:induction false} WithoutAbsent(cs: seq<ColumnInfo>, names: set<string>)
    requires forall c :: c in cs ==> c.name !in names
    ensures Without(cs, names) == cs
  {
    if cs != [] {
      WithoutAbsent(cs[..|cs| - 1], names);
      assert cs == cs[..|cs| - 1] + [cs[|cs| - 1]];
    }
  }

  lemma {:induction false} WithoutDistinct(cs: seq<ColumnInfo>, names: set<string>)
    requires Distinct(cs)
    ensures Distinct(Without(cs, names))
  {
    if cs != [] {
      var init, c := cs[..|cs| - 1], cs[|cs| - 1];
      WithoutDistinct(init, names);
      WithoutMembers(init, names);
      forall i | 0 <= i < |Without(init, names)| ensures Without(init, names)[i].name != c.name {
        assert Without(init, names)[i] in init;
      }
    }
  }

  lemma {:induction false} WithoutConcat(a: seq<ColumnInfo>, b: seq<ColumnInfo>, names: set<string>)
    ensures Without(a + b, names) == Without(a, names) + Without(b, names)
    decreases |b|
  {
    if b == [] {
      assert a + b == a;
    } else {
      var init, c := b[..|b| - 1], b[|b| - 1];
      WithoutConcat(a, init, names);
      assert a + b == (a + init) + [c] && b == init + [c];
      WithoutSnoc(a + init, c, names);
      WithoutSnoc(init, c, names);
    }
  }

  /** Erasing the one column of a name is filtering that name out. */
  lemma {:induction false} EraseIsWithout(cs: seq<ColumnInfo>, k: nat)
    requires Distinct(cs) && k < |cs|
    ensures cs[..k] + cs[k + 1..] == Without(cs, {cs[k].name})
  {
    var names, rest := {cs[k].name}, cs[..k] + cs[k + 1..];
    assert cs == cs[..k] + [cs[k]] + cs[k + 1..];
    WithoutConcat(cs[..k] + [cs[k]], cs[k + 1..], names);
    WithoutSnoc(cs[..k], cs[k], names);
    WithoutConcat(cs[..k], cs[k + 1..], names);
    WithoutAbsent(rest, names);
  }

  lemma {:induction false} NamesSnoc(cs: seq<ColumnInfo>, c: ColumnInfo)
    ensures Names(cs + [c]) == Names(cs) + {c.name}
  {
    assert forall i :: 0 <= i < |cs| ==> (cs + [c])[i] == cs[i];
    forall n | n in Names(cs) + {c.name} ensures n in Names(cs + [c]) {
      if n in Names(cs) {
        var i :| 0 <= i < |cs| && cs[i].name == n;
        assert (cs + [c])[i].name == n;
      } else {
        assert (cs + [c])[|cs|].name == n;
      }
    }
  }

  lemma {:induction false} WithoutSnoc(cs: seq<ColumnInfo>, c: ColumnInfo, names: set<string>)
    ensures Without(cs + [c], names) == if c.name in names then Without(cs, names) else Without(cs, names) + [c]
  {
    assert (cs + [c])[..|cs|] == cs;
  }

  // ---------- get_remove_add_columns ----------

  /** The number of values of `size_t`: the loop index is unsigned and is decremented through zero. */
  const SIZE_VALUES := 0x1_0000_0000_0000_0000

  function Prev(i: nat): (r: nat) { (i + SIZE_VALUES - 1) % SIZE_VALUES }

  function Next(i: nat): (r: nat) { (i + 1) % SIZE_VALUES }

  lemma {:induction false} Unsigned(i: nat)
    requires i < SIZE_VALUES
    ensures Next(Prev(i)) == i && (i > 0 ==> Next(i - 1) == i)
  {
  }

  lemma {:induction false} EraseAfter(a: seq<ColumnInfo>, b: seq<ColumnInfo>)
    requires b != []
    ensures (a + b)[..|a|] + (a + b)[|a| + 1..] == a + b[1..]
  {
  }

  method FindColumn(cs: seq<ColumnInfo>, name: string) returns (k: nat)
    ensures k <= |cs| && (k < |cs| ==> cs[k].name == name)
    ensures k == |cs| ==> name !in Names(cs)
  {
    k := 0;
    while k < |cs| && cs[k].name != name
      invariant k <= |cs| && forall i :: 0 <= i < k ==> cs[i].name != name
    {
      k := k + 1;
    }
  }

  /** The state of the diff after `j` storage columns: what has been dealt with is either erased from both
      lists or kept at the front of the storage list, where the saved pointers still reach it. */
  ghost predicate Diffed(types: TypeMap, storage0: seq<ColumnInfo>, db0: seq<ColumnInfo>, j: nat,
                         toAdd: seq<nat>, storage: seq<ColumnInfo>, db: seq<ColumnInfo>) {
    && j <= |storage0|
    && storage == Missing(storage0[..j], db0) + storage0[j..]
    && db == Excess(storage0[..j], db0)
    && !Conflict(types, storage0[..j], db0)
    && |toAdd| == |Missing(storage0[..j], db0)|
    && forall k :: 0 <= k < |toAdd| ==> toAdd[k] == k
  }

  lemma {:induction false} DiffStart(types: TypeMap, storage: seq<ColumnInfo>, db: seq<ColumnInfo>)
    ensures Diffed(types, storage, db, 0, [], storage, db)
  {
    assert Names(storage[..0]) == {};
    WithoutNothing(db);
  }

  lemma {:induction false} DiffErase(types: TypeMap, storage0: seq<ColumnInfo>, db0: seq<ColumnInfo>, j: nat,
                  toAdd: seq<nat>, storage: seq<ColumnInfo>, db: seq<ColumnInfo>, k: nat)
    requires Distinct(storage0) && Distinct(db0) && Diffed(types, storage0, db0, j, toAdd, storage, db)
    requires |toAdd| < |storage| && k < |db| && db[k].name == storage[|toAdd|].name
    ensures j < |storage0|
    ensures var i := |toAdd|;
            if ColumnsEqual(types, db[k], storage[i])
            then Diffed(types, storage0, db0, j + 1, toAdd, storage[..i] + storage[i + 1..], db[..k] + db[k + 1..])
            else Conflict(types, storage0, db0)
  {
    var kept := Missing(storage0[..j], db0);
    assert storage[|kept|] == storage0[j];
    DiffPresent(types, storage0, db0, j, k);
    EraseAfter(kept, storage0[j..]);
    assert storage0[j..][1..] == storage0[j + 1..];
  }

  lemma {:induction false} DiffKeep(types: TypeMap, storage0: seq<ColumnInfo>, db0: seq<ColumnInfo>, j: nat,
                 toAdd: seq<nat>, storage: seq<ColumnInfo>, db: seq<ColumnInfo>)
    requires Distinct(storage0) && Diffed(types, storage0, db0, j, toAdd, storage, db)
    requires |toAdd| < |storage| && storage[|toAdd|].name !in Names(db)
    ensures j < |storage0| && Diffed(types, storage0, db0, j + 1, toAdd + [|toAdd|], storage, db)
  {
    var kept := Missing(storage0[..j], db0);
    assert storage[|kept|] == storage0[j];
    DiffAbsent(types, storage0, db0, j);
    assert storage == kept + [storage0[j]] + storage0[j + 1..];
  }

  lemma {:induction false} DiffEnd(types: TypeMap, storage0: seq<ColumnInfo>, db0: seq<ColumnInfo>, j: nat,
                toAdd: seq<nat>, storage: seq<ColumnInfo>, db: seq<ColumnInfo>)
    requires Diffed(types, storage0, db0, j, toAdd, storage, db) && |toAdd| == |storage|
    ensures storage == Missing(storage0, db0) && db == Excess(storage0, db0) && !Conflict(types, storage0, db0)
  {
    assert storage0[..j] == storage0;
  }

  datatype Diff = Diff(i: nat, toAdd: seq<nat>, storage: seq<ColumnInfo>, db: seq<ColumnInfo>)

  ghost predicate DiffedTo(types: TypeMap, storage0: seq<ColumnInfo>, db0: seq<ColumnInfo>, j: nat, d: Diff) {
    d.i == |d.toAdd| <= |d.storage| < SIZE_VALUES && Diffed(types, storage0, db0, j, d.toAdd, d.storage, d.db)
  }

  /** One round of the loop, up to and including the increment; None is the exit on a mismatch. */
  method DiffRound(types: TypeMap, d: Diff, ghost storage0: seq<ColumnInfo>, ghost db0: seq<ColumnInfo>, ghost j: nat)
    returns (r: Option<Diff>)
    requires Distinct(storage0) && Distinct(db0) && DiffedTo(types, storage0, db0, j, d) && d.i < |d.storage|
    ensures j < |storage0|
    ensures r.Some? ==> DiffedTo(types, storage0, db0, j + 1, r.value)
    ensures r.None? ==> Conflict(types, storage0, db0)
  {
    var i, storage, db := d.i, d.storage, d.db;
    var k := FindColumn(db, storage[i].name);
    if k < |db| {
      DiffErase(types, storage0, db0, j, d.toAdd, storage, db, k);
      if !ColumnsEqual(types, db[k], storage[i]) { return None; }
      db := db[..k] + db[k + 1..];
      storage := storage[..i] + storage[i + 1..];
      Unsigned(i);
      i := Prev(i);
      r := Some(Diff(Next(i), d.toAdd, storage, db));
    } else {
      DiffKeep(types, storage0, db0, j, d.toAdd, storage, db);
      Unsigned(i + 1);
      r := Some(Diff(Next(i), d.toAdd + [i], storage, db));
    }
  }

  /** `get_remove_add_columns`. `toAdd` holds pointers into the storage list, as indices taken when each
      column was looked at; at the end they still reach exactly the missing columns, in order. */
  method RemoveAddColumns(types: TypeMap, storage0: seq<ColumnInfo>, db0: seq<ColumnInfo>)
    returns (notEqual: bool, toAdd: seq<nat>, storage: seq<ColumnInfo>, db: seq<ColumnInfo>)
    requires Distinct(storage0) && Distinct(db0) && |storage0| < SIZE_VALUES
    ensures notEqual <==> exists i, j :: 0 <= i < |storage0| && 0 <= j < |db0| && Differ(types, storage0[i], db0[j])
    ensures notEqual <==> Conflict(types, storage0, db0)
    ensures !notEqual ==> storage == Missing(storage0, db0) && db == Excess(storage0, db0)
    ensures !notEqual ==> |toAdd| == |storage| && forall k :: 0 <= k < |toAdd| ==> toAdd[k] == k
  {
    ConflictMeans(types, storage0, db0);
    var d := Diff(0, [], storage0, db0);
    ghost var j := 0;
    DiffStart(types, storage0, db0);
    while d.i < |d.storage|
      invariant DiffedTo(types, storage0, db0, j, d)
      decreases |storage0| - j
    {
      var next := DiffRound(types, d, storage0, db0, j);
      if next.None? { return true, d.toAdd, d.storage, d.db; }
      d := next.value;
      j := j + 1;
    }
    DiffEnd(types, storage0, db0, j, d.toAdd, d.storage, d.db);
    return false, d.toAdd, d.storage, d.db;
  }

  /** The next storage column has no partner left in the database. */
  lemma {:induction false} DiffAbsent(types: TypeMap, storage: seq<ColumnInfo>, db: seq<ColumnInfo>, j: nat)
    requires Distinct(storage) && j < |storage| && !Conflict(types, storage[..j], db)
    requires storage[j].name !in Names(Excess(storage[..j], db))
    ensures Missing(storage[..j + 1], db) == Missing(storage[..j], db) + [storage[j]]
    ensures Excess(storage[..j + 1], db) == Excess(storage[..j], db)
    ensures !Conflict(types, storage[..j + 1], db)
  {
    var s, done, left := storage[j], storage[..j], Excess(storage[..j], db);
    WithoutMembers(db, Names(done));
    assert storage[..j + 1] == done + [s];
    NamesSnoc(done, s);
    WithoutSnoc(done, s, Names(db));
    WithoutTwice(db, Names(done), {s.name});
    assert s.name !in Names(done);
    forall d | d in db ensures d.name != s.name {
      if d in left { NameInNames(left, d); }
    }
    assert s.name !in Names(db);
    WithoutAbsent(left, {s.name});
  }

  /** The next storage column has the partner at index `k` among the remaining database columns. */
  lemma {:induction false} DiffPresent(types: TypeMap, storage: seq<ColumnInfo>, db: seq<ColumnInfo>, j: nat, k: nat)
    requires Distinct(storage) && Distinct(db) && j < |storage| && !Conflict(types, storage[..j], db)
    requires k < |Excess(storage[..j], db)| && Excess(storage[..j], db)[k].name == storage[j].name
    ensures var left := Excess(storage[..j], db);
            if ColumnsEqual(types, left[k], storage[j])
            then Missing(storage[..j + 1], db) == Missing(storage[..j], db)
              && Excess(storage[..j + 1], db) == left[..k] + left[k + 1..]
              && !Conflict(types, storage[..j + 1], db)
            else Conflict(types, storage, db)
  {
    var s, done, left := storage[j], storage[..j], Excess(storage[..j], db);
    WithoutMembers(db, Names(done));
    var d := left[k];
    assert d in db && s in storage;
    if ColumnsEqual(types, d, s) {
      assert storage[..j + 1] == done + [s];
      NamesSnoc(done, s);
      WithoutSnoc(done, s, Names(db));
      WithoutTwice(db, Names(done), {s.name});
      WithoutDistinct(db, Names(done));
      EraseIsWithout(left, k);
      NameInNames(db, d);
      SameName(db, d);
      ConflictSnoc(types, done, s, db, d);
    }
  }

  lemma {:induction false} NameInNames(cs: seq<ColumnInfo>, c: ColumnInfo)
    requires c in cs
    ensures c.name in Names(cs)
  {
    var i :| 0 <= i < |cs| && cs[i] == c;
    assert cs[i].name == c.name;
  }

  lemma {:induction false} SameName(cs: seq<ColumnInfo>, d: ColumnInfo)
    requires Distinct(cs) && d in cs
    ensures forall e :: e in cs && e.name == d.name ==> e == d
  {
  }

  lemma {:induction false} ConflictSnoc(types: TypeMap, cs: seq<ColumnInfo>, s: ColumnInfo, db: seq<ColumnInfo>, d: ColumnInfo)
    requires !Conflict(types, cs, db) && ColumnsEqual(types, d, s)
    requires forall e :: e in db && e.name == s.name ==> e == d
    ensures !Conflict(types, cs + [s], db)
  {
  }
}
