/** Connections and transactions of a storage: when a connection is held, which connection a statement uses,
    and how the remembered `synchronous` pragma is re-applied when a connection is opened. */
module SqliteStorage {
  import opened Wrappers

  datatype Outcome = Done | OrmError | SqliteError

  datatype Event = Begin | Commit | Rollback

  /** A transaction statement that succeeded, and the guard that issued it if one did. */
  datatype Entry = Entry(event: Event, author: Option<nat>)

  /** The setting of a connection to which no pragma was applied. */
  const DEFAULT_SYNC := 2

  /** `_synchronous` before any value was set. */
  const NOT_SET := -1

  /** Transactions follow each other: every one is closed once, and before the next begins. */
  predicate Bracketed(log: seq<Entry>) {
    forall i :: 0 <= i < |log| ==> (log[i].event == Begin <==> i % 2 == 0)
  }

  /** The last transaction begun is not yet closed. */
  predicate IsOpen(log: seq<Entry>) { |log| % 2 == 1 }

  class Storage {
    const inMemory: bool
    var isOpenedForever: bool
    /** The connection held in `currentTransaction`. */
    var current: Option<nat>
    var remembered: int

    // What SQLite itself knows: the open connections, their settings, and those inside a transaction.
    var nextId: nat
    var open: set<nat>
    var sync: map<nat, int>
    var inTransaction: set<nat>
    ghost var log: seq<Entry>

    /** The bookkeeping of connections. */
    ghost predicate Connected()
      reads this
    {
      && sync.Keys == open && inTransaction <= open && (forall c :: c in open ==> c < nextId)
      && (current.Some? ==> current.value in open)
    }

    ghost predicate Valid()
      reads this
    {
      && Connected() && inTransaction <= (if current.Some? then {current.value} else {})
      && (inMemory || isOpenedForever ==> current.Some?)
      && (!inMemory && !isOpenedForever && current.Some? ==> current.value in inTransaction)
      && (current.Some? && remembered != NOT_SET ==> sync[current.value] == remembered)
      && Bracketed(log) && (inTransaction != {} <==> IsOpen(log))
    }

    /** Between calls only the held connection is open. */
    ghost predicate Quiet()
      reads this
    {
      Valid() && open == if current.Some? then {current.value} else {}
    }

    ghost predicate InTransaction()
      reads this
    {
      inTransaction != {}
    }

    constructor (inMemory: bool)
      ensures Quiet() && this.inMemory == inMemory && !isOpenedForever && log == [] && remembered == NOT_SET
    {
      this.inMemory := inMemory;
      isOpenedForever, remembered, inTransaction, log := false, NOT_SET, {}, [];
      if inMemory {
        current, nextId, open, sync := Some(0), 1, {0}, map[0 := DEFAULT_SYNC];
      } else {
        current, nextId, open, sync := None, 0, {}, map[];
      }
    }

    /** `make_shared<database_connection>`. */
    method OpenConnection() returns (c: nat)
      requires Connected()
      modifies this`nextId, this`open, this`sync
      ensures Connected() && c == old(nextId) && nextId == c + 1 && c !in old(open)
      ensures open == old(open) + {c} && sync == old(sync)[c := DEFAULT_SYNC]
    {
      c := nextId;
      nextId, open, sync := nextId + 1, open + {c}, sync[c := DEFAULT_SYNC];
    }

    /** The last reference to a connection goes away. */
    method CloseConnection(c: nat)
      modifies this`open, this`sync
      ensures open == old(open) - {c} && sync == old(sync) - {c}
    {
      open, sync := open - {c}, sync - {c};
    }

    /** `on_open_internal` for the new connection `c`. The pragma goes through `get_or_create_connection`
        again: it reaches `c` only if `c` is already the held connection. */
    method OnOpen(c: nat)
      requires Connected() && c in open && c !in inTransaction && (current.Some? ==> current.value == c)
      modifies this`remembered, this`nextId, this`open, this`sync
      ensures Connected() && remembered == old(remembered) && open == old(open) && nextId >= old(nextId)
      ensures sync == if current.Some? && remembered != NOT_SET then old(sync)[c := remembered] else old(sync)
      decreases if remembered != NOT_SET then 1 else 0, 0
    {
      if remembered != NOT_SET {
        var r := Synchronous(remembered);
      }
    }

    /** The held connection is inside a transaction. */
    ghost predicate Busy()
      reads this
    {
      current.Some? && current.value in inTransaction
    }

    /** `pragma.synchronous(value)`: forgets the value, applies it, remembers it. If applying it throws, the
        value stays forgotten. */
    method Synchronous(value: int) returns (r: Outcome)
      requires Connected()
      modifies this`remembered, this`nextId, this`open, this`sync
      ensures Connected() && open == old(open) && nextId >= old(nextId)
      ensures r == if Busy() then SqliteError else Done
      ensures remembered == if r == Done then value else NOT_SET
      ensures sync == if r == Done && current.Some? then old(sync)[current.value := value] else old(sync)
      decreases 0, 3
    {
      remembered := NOT_SET;
      r := SetPragma(value);
      if r == Done { remembered := value; }
    }

    /** SQLite refuses to change the safety level inside a transaction. */
    method SetPragma(value: int) returns (r: Outcome)
      requires remembered == NOT_SET && Connected()
      modifies this`remembered, this`nextId, this`open, this`sync
      ensures Connected() && remembered == NOT_SET && open == old(open) && nextId >= old(nextId)
      ensures r == if Busy() then SqliteError else Done
      ensures sync == if r == Done && current.Some? then old(sync)[current.value := value] else old(sync)
      decreases 0, 2
    {
      var c := GetOrCreateConnection();
      if c in inTransaction { return SqliteError; }
      sync := sync[c := value];
      if current.None? {
        CloseConnection(c);
        assert open == old(open);
        assert sync == old(sync);
      }
      r := Done;
    }

    /** `get_or_create_connection`. A fresh connection never has the remembered setting. */
    method GetOrCreateConnection() returns (c: nat)
      requires Connected()
      modifies this`remembered, this`nextId, this`open, this`sync
      ensures Connected() && remembered == old(remembered) && nextId >= old(nextId)
      ensures current.Some? ==> c == current.value && open == old(open) && sync == old(sync)
      ensures current.None? ==> c !in old(open) && open == old(open) + {c} && sync == old(sync)[c := DEFAULT_SYNC]
      decreases if remembered != NOT_SET then 1 else 0, 1
    {
      if current.None? {
        c := OpenConnection();
        OnOpen(c);
      } else {
        c := current.value;
      }
    }

    /** Any statement of the storage: it runs on the held connection if there is one, otherwise on one of
        its own that closes afterwards. `setting` is the synchronous setting it ran under. */
    method Execute() returns (c: nat, setting: int)
      requires Quiet()
      modifies this`remembered, this`nextId, this`open, this`sync
      ensures Quiet() && remembered == old(remembered)
      ensures current.Some? ==> c == current.value
      ensures remembered != NOT_SET ==> setting == if current.Some? then remembered else DEFAULT_SYNC
    {
      c := GetOrCreateConnection();
      setting := sync[c];
      if current.None? {
        CloseConnection(c);
        assert open == {};
      }
    }

    /** `begin_transaction`. */
    method BeginTransaction(ghost author: Option<nat>) returns (r: Outcome)
      requires Quiet()
      modifies this
      ensures Quiet() && isOpenedForever == old(isOpenedForever) && remembered == old(remembered)
      ensures r == if old(!InTransaction()) then Done else if !inMemory && !isOpenedForever then OrmError else SqliteError
      ensures r == Done ==> InTransaction() && log == old(log) + [Entry(Begin, author)]
      ensures r != Done ==> current == old(current) && inTransaction == old(inTransaction) && log == old(log)
    {
      if !inMemory && !isOpenedForever {
        if current.Some? { return OrmError; }
        var c := OpenConnection();
        current := Some(c);
        OnOpen(c);
      }
      var db := current.value;
      if db in inTransaction { return SqliteError; }
      inTransaction := inTransaction + {db};
      log := log + [Entry(Begin, author)];
      assert open == {current.value};
      r := Done;
    }

    /** `commit` and `rollback`, which differ only in the statement. */
    method EndTransaction(e: Event, ghost author: Option<nat>) returns (r: Outcome)
      requires Quiet() && e != Begin
      modifies this
      ensures Quiet() && isOpenedForever == old(isOpenedForever) && remembered == old(remembered)
      ensures r == if old(InTransaction()) then Done else if current.None? then OrmError else SqliteError
      ensures r == Done ==> !InTransaction() && log == old(log) + [Entry(e, author)]
      ensures r != Done ==> current == old(current) && inTransaction == old(inTransaction) && log == old(log)
    {
      if !inMemory && current.None? { return OrmError; }
      var db := current.value;
      if db !in inTransaction { return SqliteError; }
      inTransaction := inTransaction - {db};
      log := log + [Entry(e, author)];
      if !inMemory && !isOpenedForever {
        current := None;
        CloseConnection(db);
        assert open == {};
      }
      r := Done;
    }

    /** `open_forever`, possibly in the middle of a transaction. */
    method OpenForever()
      requires Quiet()
      modifies this
      ensures Quiet() && isOpenedForever && remembered == old(remembered)
      ensures inTransaction == old(inTransaction) && log == old(log)
      ensures old(current).Some? ==> current == old(current)
    {
      isOpenedForever := true;
      if current.None? {
        var c := OpenConnection();
        current := Some(c);
        OnOpen(c);
        assert open == {c};
      }
    }

    /** The public pragma setter: inside a transaction it fails, and an earlier value is forgotten. */
    method SetSynchronous(value: int) returns (r: Outcome)
      requires Quiet()
      modifies this`remembered, this`nextId, this`open, this`sync
      ensures Quiet() && r == (if InTransaction() then SqliteError else Done) && (current.None? <==> old(current).None?)
      ensures remembered == if r == Done then value else NOT_SET
    {
      r := Synchronous(value);
    }
  }

  /** A value set before a transaction is forgotten when another one is set inside it. */
  method ForgottenValue() returns (before: int, r: Outcome, after: int)
    ensures before == 1 && r == SqliteError && after == NOT_SET
  {
    var s := new Storage(false);
    var done := s.SetSynchronous(1);
    before := s.remembered;
    var begun := s.BeginTransaction(None);
    r := s.SetSynchronous(0);
    after := s.remembered;
  }

  /** A statement outside a transaction runs without the remembered value. */
  method StatementWithoutValue() returns (remembered: int, setting: int)
    ensures remembered == 1 && setting == DEFAULT_SYNC != remembered
  {
    var s := new Storage(false);
    var done := s.SetSynchronous(1);
    var c;
    c, setting := s.Execute();
    remembered := s.remembered;
  }
}
