/** Transaction guards over whole runs: any number of guards with any lifetimes, mixed with every operation of
    the storage they guard. */
module SqliteGuard {
  import opened Wrappers
  import opened SqliteStorage

  // ---------- runs as histories ----------

  datatype Op =
    | DoBegin | DoCommit | DoRollback | DoOpenForever | DoExecute | DoSynchronous(value: int)
    | MakeGuard                               // `storage.transaction_guard()`
    | GuardEnd(k: nat, commit: bool)          // `commit()` or `rollback()` on guard k
    | SetOnDestroy(k: nat, onDestroy: bool)   // `commit_on_destroy`
    | DestroyGuard(k: nat)

  /** A guard: whether it will still act, whether it exists, and where its own BEGIN stands in the log. */
  datatype GuardState = GuardState(armed: bool, alive: bool, commitOnDestroy: bool, begun: nat)

  /** A history. An exception out of a destructor ends the program: `terminated`. */
  datatype World = World(log: seq<Entry>, guards: seq<GuardState>, terminated: bool)

  const START := World([], [], false)

  predicate Alive(w: World, k: nat) { k < |w.guards| && w.guards[k].alive }

  /** An end of transaction on the storage; it throws when none is open. */
  function EndOnStorage(w: World, e: Event): (r: World) {
    if IsOpen(w.log) then w.(log := w.log + [Entry(e, None)]) else w
  }

  function EndByGuard(w: World, k: nat, commit: bool): (r: World)
    requires k < |w.guards|
  {
    w.(log := w.log + [Entry(if commit then Commit else Rollback, Some(k))], guards := w.guards[k := w.guards[k].(armed := false)])
  }

  function Kill(w: World, k: nat): (r: World)
    requires k < |w.guards|
  {
    w.(guards := w.guards[k := w.guards[k].(alive := false)])
  }

  /** What one operation does to the history. Operations on a guard that does not exist do nothing. */
  function Next(w: World, op: Op): (r: World) {
    if w.terminated then w
    else match op
      case DoBegin => if IsOpen(w.log) then w else w.(log := w.log + [Entry(Begin, None)])
      case DoCommit => EndOnStorage(w, Commit)
      case DoRollback => EndOnStorage(w, Rollback)
      case DoOpenForever => w
      case DoExecute => w
      case DoSynchronous(_) => w
      case MakeGuard =>
        if IsOpen(w.log) then w
        else w.(log := w.log + [Entry(Begin, Some(|w.guards|))], guards := w.guards + [GuardState(true, true, false, |w.log|)])
      case GuardEnd(k, commit) => if Alive(w, k) && IsOpen(w.log) then EndByGuard(w, k, commit) else w
      case SetOnDestroy(k, b) => if Alive(w, k) then w.(guards := w.guards[k := w.guards[k].(commitOnDestroy := b)]) else w
      case DestroyGuard(k) =>
        if !Alive(w, k) then w
        else if !w.guards[k].armed then Kill(w, k)
        else if IsOpen(w.log) then Kill(EndByGuard(w, k, w.guards[k].commitOnDestroy), k)
        else w.(terminated := true)
  }

  function After(w: World, ops: seq<Op>): (r: World) {
    if ops == [] then w else Next(After(w, ops[..|ops| - 1]), ops[|ops| - 1])
  }

  lemma {:induction false} AfterSnoc(w: World, ops: seq<Op>, op: Op)
    ensures After(w, ops + [op]) == Next(After(w, ops), op)
  {
    assert (ops + [op])[..|ops|] == ops;
  }

  lemma {:induction false} AfterConcat(w: World, ops: seq<Op>, more: seq<Op>)
    ensures After(w, ops + more) == After(After(w, ops), more)
    decreases |more|
  {
    if more == [] {
      assert ops + more == ops;
    } else {
      assert (ops + more)[..|ops + more| - 1] == ops + more[..|more| - 1];
      AfterConcat(w, ops, more[..|more| - 1]);
    }
  }

  // ---------- what every history keeps ----------

  /** Entry `i` of the log is the end of a transaction by guard `k`. */
  predicate EndsAt(log: seq<Entry>, k: nat, i: nat) {
    i < |log| && log[i].author == Some(k) && log[i].event != Begin
  }

  /** A guard's BEGIN is its own; it ends transactions only later, and is armed while it has ended none. */
  ghost predicate GuardFits(log: seq<Entry>, k: nat, g: GuardState) {
    && g.begun < |log| && log[g.begun] == Entry(Begin, Some(k))
    && (forall i: nat :: EndsAt(log, k, i) ==> i > g.begun)
    && (g.armed ==> forall i: nat :: !EndsAt(log, k, i))
    && (!g.armed ==> exists i: nat :: EndsAt(log, k, i))
  }

  ghost predicate Consistent(w: World) {
    && Bracketed(w.log)
    && (forall k :: 0 <= k < |w.guards| ==> GuardFits(w.log, k, w.guards[k]))
    && forall i :: 0 <= i < |w.log| && w.log[i].author.Some? ==> w.log[i].author.value < |w.guards|
  }

  lemma {:induction false} OthersFit(log: seq<Entry>, e: Entry, k: nat, g: GuardState)
    requires GuardFits(log, k, g) && e.author != Some(k)
    ensures GuardFits(log + [e], k, g)
  {
    assert forall i: nat :: EndsAt(log + [e], k, i) <==> EndsAt(log, k, i);
  }

  /** One more entry that is no guard's end. */
  lemma {:induction false} AppendKeeps(w: World, e: Entry)
    requires Consistent(w) && e.author == None && (e.event == Begin <==> !IsOpen(w.log))
    ensures Consistent(w.(log := w.log + [e]))
  {
    forall k | 0 <= k < |w.guards| ensures GuardFits(w.log + [e], k, w.guards[k]) {
      OthersFit(w.log, e, k, w.guards[k]);
    }
  }

  lemma {:induction false} MakeKeeps(w: World)
    requires Consistent(w) && !IsOpen(w.log)
    ensures Consistent(Next(w.(terminated := false), MakeGuard))
  {
    var e, n := Entry(Begin, Some(|w.guards|)), |w.guards|;
    var log := w.log + [e];
    forall k | 0 <= k < n ensures GuardFits(log, k, w.guards[k]) {
      OthersFit(w.log, e, k, w.guards[k]);
    }
    assert forall i: nat :: !EndsAt(log, n, i);
  }

  lemma {:induction false} EndByGuardKeeps(w: World, k: nat, commit: bool)
    requires Consistent(w) && k < |w.guards| && IsOpen(w.log)
    ensures Consistent(EndByGuard(w, k, commit))
  {
    var e := Entry(if commit then Commit else Rollback, Some(k));
    var log, w' := w.log + [e], EndByGuard(w, k, commit);
    assert EndsAt(log, k, |w.log|);
    assert forall i: nat :: EndsAt(log, k, i) <==> EndsAt(w.log, k, i) || i == |w.log|;
    forall j | 0 <= j < |w.guards| ensures GuardFits(log, j, w'.guards[j]) {
      if j != k { OthersFit(w.log, e, j, w.guards[j]); }
    }
  }

  /** Every operation keeps the shape of the history. */
  lemma {:induction false} NextKeeps(w: World, op: Op)
    requires Consistent(w)
    ensures Consistent(Next(w, op))
  {
    if w.terminated { return; }
    match op {
      case DoBegin => if !IsOpen(w.log) { AppendKeeps(w, Entry(Begin, None)); }
      case DoCommit => if IsOpen(w.log) { AppendKeeps(w, Entry(Commit, None)); }
      case DoRollback => if IsOpen(w.log) { AppendKeeps(w, Entry(Rollback, None)); }
      case MakeGuard => if !IsOpen(w.log) { MakeKeeps(w); }
      case GuardEnd(k, commit) => if Alive(w, k) && IsOpen(w.log) { EndByGuardKeeps(w, k, commit); }
      case DestroyGuard(k) =>
        if Alive(w, k) && w.guards[k].armed && IsOpen(w.log) { EndByGuardKeeps(w, k, w.guards[k].commitOnDestroy); }
      case _ =>
    }
  }

  /** In every run transactions are properly bracketed, every guard has a BEGIN of its own, and it is still
      armed exactly when it has ended no transaction. */
  lemma {:induction false} RunsAreConsistent(ops: seq<Op>)
    ensures Consistent(After(START, ops))
  {
    if ops != [] {
      RunsAreConsistent(ops[..|ops| - 1]);
      NextKeeps(After(START, ops[..|ops| - 1]), ops[|ops| - 1]);
    }
  }

  // ---------- what a destructor does ----------

  /** The transaction begun at `b` is closed by guard `k`, which ends no other. */
  ghost predicate ClosesOnlyOwn(log: seq<Entry>, k: nat, b: nat) {
    EndsAt(log, k, b + 1) && forall i: nat :: EndsAt(log, k, i) ==> i == b + 1
  }

  /** Nobody but the guard has closed its transaction, and the guard has closed no other. */
  ghost predicate OwnSoFar(log: seq<Entry>, k: nat, b: nat) {
    && (forall i: nat :: EndsAt(log, k, i) ==> i == b + 1)
    && (|log| > b + 1 ==> log[b + 1].author == Some(k))
  }

  ghost predicate EndedNone(log: seq<Entry>, k: nat) { forall i: nat :: !EndsAt(log, k, i) }

  /** For every run and every guard alive after it: the destructor throws, and the program ends, exactly if the
      guard has ended no transaction, its own was ended by somebody else and none is open. Otherwise the
      guard's BEGIN is closed by exactly one end, and the guard closes its own transaction and no other exactly
      if nobody else had closed it and the guard had closed no other. */
  lemma {:induction false} DestroyDecides(ops: seq<Op>, k: nat)
    requires Alive(After(START, ops), k) && !After(START, ops).terminated
    ensures var w, w' := After(START, ops), After(START, ops + [DestroyGuard(k)]);
            var b := w.guards[k].begun;
            && (w'.terminated <==> EndedNone(w.log, k) && |w.log| > b + 1 && !IsOpen(w.log))
            && (w'.terminated ==> w'.log == w.log && w.log[b + 1].author != Some(k))
            && (!w'.terminated ==> |w'.log| > b + 1 && w'.log[b].event == Begin && w'.log[b + 1].event != Begin && !Alive(w', k))
            && (!w'.terminated && EndedNone(w.log, k) ==>
                  w'.log == w.log + [Entry(if w.guards[k].commitOnDestroy then Commit else Rollback, Some(k))])
            && (!EndedNone(w.log, k) ==> w'.log == w.log)
            && (!w'.terminated && ClosesOnlyOwn(w'.log, k, b) <==> OwnSoFar(w.log, k, b))
  {
    var w, w' := After(START, ops), After(START, ops + [DestroyGuard(k)]);
    RunsAreConsistent(ops);
    AfterSnoc(START, ops, DestroyGuard(k));
    DestroyWorld(w, k);
  }

  lemma {:induction false} DestroyWorld(w: World, k: nat)
    requires Consistent(w) && Alive(w, k) && !w.terminated
    ensures var w', b := Next(w, DestroyGuard(k)), w.guards[k].begun;
            && (w'.terminated <==> EndedNone(w.log, k) && |w.log| > b + 1 && !IsOpen(w.log))
            && (w'.terminated ==> w'.log == w.log && w.log[b + 1].author != Some(k))
            && (!w'.terminated ==> |w'.log| > b + 1 && w'.log[b].event == Begin && w'.log[b + 1].event != Begin && !Alive(w', k))
            && (!w'.terminated && EndedNone(w.log, k) ==>
                  w'.log == w.log + [Entry(if w.guards[k].commitOnDestroy then Commit else Rollback, Some(k))])
            && (!EndedNone(w.log, k) ==> w'.log == w.log)
            && (!w'.terminated && ClosesOnlyOwn(w'.log, k, b) <==> OwnSoFar(w.log, k, b))
  {
    var g := w.guards[k];
    var b := g.begun;
    assert GuardFits(w.log, k, g) && b % 2 == 0;
    if |w.log| > b + 1 { assert w.log[b + 1].event != Begin; }
    if !g.armed {
      var i: nat :| EndsAt(w.log, k, i);
      DisarmedOwns(w.log, k, b, i);
    } else if IsOpen(w.log) {
      ArmedCloses(w.log, k, b, w.guards[k].commitOnDestroy);
    } else {
      assert |w.log| > b + 1;
      if w.log[b + 1].author == Some(k) { assert EndsAt(w.log, k, b + 1); }
    }
  }

  lemma {:induction false} DisarmedOwns(log: seq<Entry>, k: nat, b: nat, i: nat)
    requires EndsAt(log, k, i) && b < i && (|log| > b + 1 ==> log[b + 1].event != Begin)
    ensures |log| > b + 1 && (ClosesOnlyOwn(log, k, b) <==> OwnSoFar(log, k, b))
  {
    if OwnSoFar(log, k, b) { assert EndsAt(log, k, b + 1); }
  }

  lemma {:induction false} ArmedCloses(log: seq<Entry>, k: nat, b: nat, commit: bool)
    requires EndedNone(log, k) && b < |log| && b % 2 == 0 && IsOpen(log) && (|log| > b + 1 ==> log[b + 1].event != Begin)
    ensures var log' := log + [Entry(if commit then Commit else Rollback, Some(k))];
            && |log'| > b + 1 && log'[b + 1].event != Begin
            && (ClosesOnlyOwn(log', k, b) <==> OwnSoFar(log, k, b))
  {
    var log' := log + [Entry(if commit then Commit else Rollback, Some(k))];
    forall i: nat ensures EndsAt(log', k, i) <==> i == |log| {
      assert !EndsAt(log, k, i);
    }
    assert !EndsAt(log, k, b + 1);
  }

  // ---------- a discipline a caller can follow ----------

  /** Nothing calls the guard or destroys it. */
  predicate Unused(body: seq<Op>, k: nat) {
    forall i :: 0 <= i < |body| ==> body[i] != DestroyGuard(k) && !(body[i].GuardEnd? && body[i].k == k)
  }

  /** Ends no transaction, whatever the state. */
  predicate EndsNothing(op: Op) { !op.DoCommit? && !op.DoRollback? && !op.GuardEnd? && !op.DestroyGuard? }

  /** Until guard `k` is ended explicitly, nothing else ends a transaction; afterwards the guard is left alone. */
  predicate Disciplined(body: seq<Op>, k: nat) {
    body == [] || (if body[0].GuardEnd? && body[0].k == k then Unused(body[1..], k)
                   else EndsNothing(body[0]) && Disciplined(body[1..], k))
  }

  lemma {:induction false} AfterCons(w: World, body: seq<Op>)
    requires body != []
    ensures After(w, body) == After(Next(w, body[0]), body[1..])
  {
    AfterConcat(w, [body[0]], body[1..]);
    assert [body[0]] + body[1..] == body;
    assert [body[0]][..0] == [];
  }

  /** How a disciplined body ends the transaction of guard `k`: as it says explicitly, otherwise as the guard is
      set to when it is destroyed. */
  function FinalEnd(body: seq<Op>, k: nat, onDestroy: bool): (e: Event) {
    if body == [] then (if onDestroy then Commit else Rollback)
    else if body[0].GuardEnd? && body[0].k == k then (if body[0].commit then Commit else Rollback)
    else if body[0].SetOnDestroy? && body[0].k == k then FinalEnd(body[1..], k, body[0].onDestroy)
    else FinalEnd(body[1..], k, onDestroy)
  }

  /** The transaction begun at `b` was closed by `e`, or will be when guard `k` is destroyed. */
  ghost predicate ClosesAs(w: World, k: nat, b: nat, e: Event)
    requires k < |w.guards|
  {
    if |w.log| > b + 1 then w.log[b + 1].event == e
    else EndedNone(w.log, k) && e == if w.guards[k].commitOnDestroy then Commit else Rollback
  }

  ghost predicate Owned(w: World, k: nat, b: nat) {
    Alive(w, k) && w.guards[k].begun == b && OwnSoFar(w.log, k, b)
  }

  /** While nobody uses guard `k` and its transaction is closed by itself, that stays so. */
  lemma {:induction false} UnusedKeeps(w: World, body: seq<Op>, k: nat, b: nat)
    requires Consistent(w) && Owned(w, k, b) && |w.log| > b + 1 && Unused(body, k)
    ensures Owned(After(w, body), k, b) && w.log <= After(w, body).log
    decreases |body|
  {
    if body != [] {
      var w' := Next(w, body[0]);
      NextKeeps(w, body[0]);
      assert w.log <= w'.log && |w'.log| <= |w.log| + 1;
      assert forall i: nat :: EndsAt(w'.log, k, i) ==> EndsAt(w.log, k, i);
      AfterCons(w, body);
      assert forall i :: 0 <= i < |body| - 1 ==> body[1..][i] == body[i + 1];
      UnusedKeeps(w', body[1..], k, b);
    }
  }

  lemma {:induction false} NoEndYet(w: World, k: nat, b: nat)
    requires Consistent(w) && Owned(w, k, b) && |w.log| == b + 1
    ensures EndedNone(w.log, k)
  {
    assert GuardFits(w.log, k, w.guards[k]);
  }

  lemma {:induction false} DisciplineKeeps(w: World, body: seq<Op>, k: nat, b: nat)
    requires Consistent(w) && Owned(w, k, b) && !w.terminated && |w.log| == b + 1 && IsOpen(w.log) && Disciplined(body, k)
    ensures Owned(After(w, body), k, b)
    ensures ClosesAs(After(w, body), k, b, FinalEnd(body, k, w.guards[k].commitOnDestroy))
    decreases |body|
  {
    if body == [] {
      NoEndYet(w, k, b);
    } else {
      var w' := Next(w, body[0]);
      NextKeeps(w, body[0]);
      AfterCons(w, body);
      if body[0].GuardEnd? && body[0].k == k {
        assert forall i: nat :: EndsAt(w'.log, k, i) ==> EndsAt(w.log, k, i) || i == |w.log|;
        UnusedKeeps(w', body[1..], k, b);
      } else {
        assert w'.log == w.log;
        DisciplineKeeps(w', body[1..], k, b);
      }
    }
  }

  lemma {:induction false} NewGuardOwns(ops: seq<Op>, w0: World, w1: World)
    requires w0 == After(START, ops) && w1 == After(START, ops + [MakeGuard]) && !IsOpen(w0.log) && !w0.terminated
    ensures Consistent(w1) && !w1.terminated && IsOpen(w1.log)
    ensures |w1.log| == |w0.log| + 1 && Owned(w1, |w0.guards|, |w0.log|) && !w1.guards[|w0.guards|].commitOnDestroy
  {
    RunsAreConsistent(ops + [MakeGuard]);
    AfterSnoc(START, ops, MakeGuard);
    assert GuardFits(w1.log, |w0.guards|, w1.guards[|w0.guards|]);
  }

  /** A guard used with discipline, in any surroundings: its destructor never throws, and the guard closes its
      own transaction exactly once and no other, by commit or rollback as the body says. */
  lemma {:induction false} DisciplinedGuard(ops: seq<Op>, body: seq<Op>, w: World, inside: World)
    requires w == After(START, ops) && !IsOpen(w.log) && !w.terminated && Disciplined(body, |w.guards|)
    requires inside == After(START, ops + [MakeGuard] + body) && !inside.terminated
    ensures var k, b := |w.guards|, |w.log|;
            var done := After(START, ops + [MakeGuard] + body + [DestroyGuard(k)]);
            && Alive(inside, k) && !done.terminated && ClosesOnlyOwn(done.log, k, b)
            && done.log[b + 1].event == FinalEnd(body, k, false)
  {
    var w1, k, b := After(START, ops + [MakeGuard]), |w.guards|, |w.log|;
    NewGuardOwns(ops, w, w1);
    DisciplineKeeps(w1, body, k, b);
    AfterConcat(START, ops + [MakeGuard], body);
    assert Owned(inside, k, b);
    DestroyDecides(ops + [MakeGuard] + body, k);
  }

  // ---------- where the property fails ----------

  lemma {:induction false} AfterTwo(a: Op, b: Op)
    ensures After(START, [a, b]) == Next(Next(START, a), b)
  {
    assert [a, b] == [a] + [b] && [a] == [] + [a];
    AfterSnoc(START, [a], b);
    AfterSnoc(START, [], a);
  }

  /** A guard whose transaction is committed on the storage: its destructor throws. */
  lemma {:induction false} CommittedBehindTheGuard()
    ensures After(START, [MakeGuard, DoCommit, DestroyGuard(0)]).terminated
  {
    AfterTwo(MakeGuard, DoCommit);
    assert [MakeGuard, DoCommit, DestroyGuard(0)] == [MakeGuard, DoCommit] + [DestroyGuard(0)];
    AfterSnoc(START, [MakeGuard, DoCommit], DestroyGuard(0));
  }

  /** If another transaction has begun since, the destructor rolls that one back instead. */
  lemma {:induction false} RollsBackAnother()
    ensures After(START, [MakeGuard, DoCommit, DoBegin, DestroyGuard(0)]).log ==
            [Entry(Begin, Some(0)), Entry(Commit, None), Entry(Begin, None), Entry(Rollback, Some(0))]
  {
    AfterTwo(MakeGuard, DoCommit);
    assert [MakeGuard, DoCommit, DoBegin] == [MakeGuard, DoCommit] + [DoBegin];
    AfterSnoc(START, [MakeGuard, DoCommit], DoBegin);
    assert [MakeGuard, DoCommit, DoBegin, DestroyGuard(0)] == [MakeGuard, DoCommit, DoBegin] + [DestroyGuard(0)];
    AfterSnoc(START, [MakeGuard, DoCommit, DoBegin], DestroyGuard(0));
  }

  /** `commit()` on a guard commits. */
  lemma {:induction false} GuardCommits()
    ensures After(START, [MakeGuard, GuardEnd(0, true)]).log == [Entry(Begin, Some(0)), Entry(Commit, Some(0))]
    ensures After(START, [MakeGuard, GuardEnd(0, false)]).log == [Entry(Begin, Some(0)), Entry(Rollback, Some(0))]
  {
    AfterTwo(MakeGuard, GuardEnd(0, true));
    AfterTwo(MakeGuard, GuardEnd(0, false));
  }

  /** So does the destruction of a guard with `commit_on_destroy`; without it, it rolls back. */
  lemma {:induction false} GuardCommitsOnDestroy()
    ensures After(START, [MakeGuard, SetOnDestroy(0, true), DestroyGuard(0)]).log == [Entry(Begin, Some(0)), Entry(Commit, Some(0))]
    ensures After(START, [MakeGuard, DestroyGuard(0)]).log == [Entry(Begin, Some(0)), Entry(Rollback, Some(0))]
  {
    AfterTwo(MakeGuard, SetOnDestroy(0, true));
    assert [MakeGuard, SetOnDestroy(0, true), DestroyGuard(0)] == [MakeGuard, SetOnDestroy(0, true)] + [DestroyGuard(0)];
    AfterSnoc(START, [MakeGuard, SetOnDestroy(0, true)], DestroyGuard(0));
    AfterTwo(MakeGuard, DestroyGuard(0));
  }

  // ---------- the guard itself ----------

  /** `transaction_guard_t`. */
  class Guard {
    const storage: Storage
    ghost const id: nat
    var gottaFire: bool
    var commitOnDestroy: bool

    /** `storage.transaction_guard()` after its `begin_transaction` has succeeded. */
    constructor (s: Storage, ghost k: nat)
      ensures storage == s && id == k && gottaFire && !commitOnDestroy
    {
      storage, id, gottaFire, commitOnDestroy := s, k, true, false;
    }

    /** `commit` and `rollback`: an end that succeeds disarms the guard, one that throws does not. */
    method Finish(commit: bool) returns (r: Outcome)
      requires storage.Quiet()
      modifies this`gottaFire, storage
      ensures storage.Quiet() && storage.isOpenedForever == old(storage.isOpenedForever)
      ensures r == Done <==> old(storage.InTransaction())
      ensures gottaFire == (old(gottaFire) && r != Done)
      ensures storage.log == old(storage.log) + if r == Done then [Entry(if commit then Commit else Rollback, Some(id))] else []
    {
      r := storage.EndTransaction(if commit then Commit else Rollback, Some(id));
      if r == Done { gottaFire := false; }
    }

    /** The destructor; anything but Done is an exception out of it. */
    method Destroy() returns (r: Outcome)
      requires storage.Quiet()
      modifies storage
      ensures storage.Quiet() && storage.isOpenedForever == old(storage.isOpenedForever)
      ensures r == Done <==> !gottaFire || old(storage.InTransaction())
      ensures storage.log == old(storage.log) + if gottaFire && r == Done then [Entry(if commitOnDestroy then Commit else Rollback, Some(id))] else []
    {
      r := Done;
      if gottaFire { r := storage.EndTransaction(if commitOnDestroy then Commit else Rollback, Some(id)); }
    }
  }

  // ---------- whole runs ----------

  /** The storage and the guards stand as the history says. */
  ghost predicate Stands(s: Storage, guards: seq<Guard>, alive: seq<bool>, w: World)
    reads s, guards
  {
    && s.Quiet() && s.log == w.log && |guards| == |alive| == |w.guards|
    && (forall k :: 0 <= k < |guards| ==> GuardStands(s, guards[k], k, alive[k], w.guards[k]))
    && forall j, k :: 0 <= j < k < |guards| ==> guards[j] != guards[k]
  }

  ghost predicate GuardStands(s: Storage, g: Guard, k: nat, alive: bool, h: GuardState)
    reads g
  {
    && g.storage == s && g.id == k && alive == h.alive
    && (alive ==> g.gottaFire == h.armed && g.commitOnDestroy == h.commitOnDestroy)
  }

  predicate OnGuard(op: Op) { op.GuardEnd? || op.SetOnDestroy? || op.DestroyGuard? }

  method StorageOp(s: Storage, op: Op)
    requires s.Quiet() && !OnGuard(op) && !op.MakeGuard?
    modifies s
    ensures s.Quiet() && (s.isOpenedForever <==> old(s.isOpenedForever) || op.DoOpenForever?)
    ensures s.log == Next(World(old(s.log), [], false), op).log
  {
    match op {
      case DoBegin => var r := s.BeginTransaction(None);
      case DoCommit => var r := s.EndTransaction(Commit, None);
      case DoRollback => var r := s.EndTransaction(Rollback, None);
      case DoOpenForever => s.OpenForever();
      case DoExecute => var c, setting := s.Execute();
      case DoSynchronous(v) => var r := s.SetSynchronous(v);
    }
  }

  method NewGuard(s: Storage, guards: seq<Guard>, alive: seq<bool>, ghost w: World) returns (guards': seq<Guard>, alive': seq<bool>)
    requires Stands(s, guards, alive, w) && !w.terminated
    modifies s
    ensures Stands(s, guards', alive', Next(w, MakeGuard)) && s.isOpenedForever == old(s.isOpenedForever)
    ensures guards <= guards' && forall k :: |guards| <= k < |guards'| ==> fresh(guards'[k])
  {
    var r := s.BeginTransaction(Some(|guards|));
    if r != Done { return guards, alive; }
    var g := new Guard(s, |guards|);
    return guards + [g], alive + [true];
  }

  /** An operation on guard `op.k`; `terminated` is an exception out of its destructor. */
  method GuardOp(s: Storage, guards: seq<Guard>, alive: seq<bool>, op: Op, ghost w: World) returns (alive': seq<bool>, terminated: bool)
    requires Stands(s, guards, alive, w) && !w.terminated && OnGuard(op)
    modifies s, guards
    ensures Stands(s, guards, alive', Next(w, op)) && terminated == Next(w, op).terminated
    ensures s.isOpenedForever == old(s.isOpenedForever)
  {
    alive', terminated := alive, false;
    if op.k >= |guards| || !alive[op.k] { return; }
    var g := guards[op.k];
    assert GuardStands(s, g, op.k, alive[op.k], w.guards[op.k]);
    match op {
      case GuardEnd(k, commit) => var r := g.Finish(commit);
      case SetOnDestroy(k, b) => g.commitOnDestroy := b;
      case DestroyGuard(k) =>
        var r := g.Destroy();
        terminated := r != Done;
        if !terminated { alive' := alive[k := false]; }
    }
  }

  method Perform(s: Storage, guards: seq<Guard>, alive: seq<bool>, op: Op, ghost w: World)
    returns (guards': seq<Guard>, alive': seq<bool>, terminated: bool)
    requires Stands(s, guards, alive, w) && !w.terminated
    modifies s, guards
    ensures Stands(s, guards', alive', Next(w, op)) && terminated == Next(w, op).terminated
    ensures s.isOpenedForever <==> old(s.isOpenedForever) || op.DoOpenForever?
    ensures guards <= guards' && forall k :: |guards| <= k < |guards'| ==> fresh(guards'[k])
  {
    guards', alive', terminated := guards, alive, false;
    if OnGuard(op) {
      alive', terminated := GuardOp(s, guards, alive, op, w);
    } else if op.MakeGuard? {
      guards', alive' := NewGuard(s, guards, alive, w);
    } else {
      StorageOp(s, op);
    }
  }

  /** After any run of storage operations and guards, whether its steps succeeded or threw: the log is the
      history of the run, and it ended early exactly if the history did. An ordinary file storage holds a
      connection exactly when a transaction is open, any other storage always holds one, and nothing else stays
      open. */
  method Run(inMemory: bool, ops: seq<Op>) returns (s: Storage, terminated: bool)
    ensures s.Quiet() && s.inMemory == inMemory
    ensures s.log == After(START, ops).log && terminated == After(START, ops).terminated
    ensures !inMemory && !s.isOpenedForever ==> (s.current.Some? <==> s.InTransaction())
    ensures inMemory || s.isOpenedForever ==> s.current.Some?
    ensures !terminated ==> (s.isOpenedForever <==> DoOpenForever in ops)
  {
    s := new Storage(inMemory);
    var guards: seq<Guard>, alive: seq<bool> := [], [];
    ghost var w := START;
    terminated := false;
    for i := 0 to |ops|
      invariant fresh(s) && s.inMemory == inMemory && (forall k :: 0 <= k < |guards| ==> fresh(guards[k]))
      invariant w == After(START, ops[..i]) && Stands(s, guards, alive, w) && !w.terminated
      invariant s.isOpenedForever <==> DoOpenForever in ops[..i]
    {
      guards, alive, terminated := Perform(s, guards, alive, ops[i], w);
      w := Next(w, ops[i]);
      RunStep(ops, i, w);
      if terminated { return; }
    }
    assert ops[..|ops|] == ops;
  }

  lemma {:induction false} RunStep(ops: seq<Op>, i: nat, w: World)
    requires i < |ops| && w == Next(After(START, ops[..i]), ops[i])
    ensures After(START, ops[..i + 1]) == w && (w.terminated ==> After(START, ops) == w)
    ensures DoOpenForever in ops[..i + 1] <==> DoOpenForever in ops[..i] || ops[i].DoOpenForever?
  {
    assert ops[..i + 1] == ops[..i] + [ops[i]];
    AfterSnoc(START, ops[..i], ops[i]);
    AfterConcat(START, ops[..i + 1], ops[i + 1..]);
    assert ops[..i + 1] + ops[i + 1..] == ops;
    if w.terminated { TerminatedStays(w, ops[i + 1..]); }
  }

  lemma {:induction false} TerminatedStays(w: World, ops: seq<Op>)
    requires w.terminated
    ensures After(w, ops) == w
  {
    if ops != [] { TerminatedStays(w, ops[..|ops| - 1]); }
  }
}
