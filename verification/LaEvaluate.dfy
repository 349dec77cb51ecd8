/** The evaluator of the linear-algebra language: expressions become sets of blocks with an inferred
    dimension, statements bind identifiers to sets in the running instance. */
module LaEvaluate {
  import opened Wrappers
  import opened ChunkLoader
  import opened LaBlocks
  import opened LaOperations

  datatype Expr =
    | Identifier(name: string)
    | Zeros(d: Dim)
    | Ones(d: Dim)
    | Identity(size: nat, num: nat)
    | Paren(e: Expr)
    | Add(left: Expr, right: Expr)
    | Subtract(left: Expr, right: Expr)
    | ElementwiseMultiply(left: Expr, right: Expr)
    | DuplicateRowOf(e: Expr, size: nat, num: nat)
    | DuplicateColOf(e: Expr, size: nat, num: nat)

  datatype Statement = Statement(id: string, e: Expr)

  predicate IsInitializer(e: Expr) { e.Zeros? || e.Ones? || e.Identity? }

  function InitKind(e: Expr): (k: Init)
    requires IsInitializer(e)
  {
    if e.Zeros? then ZerosInit else if e.Ones? then OnesInit else IdentityInit
  }

  function InitDim(e: Expr): (d: Dim)
    requires IsInitializer(e)
  {
    if e.Identity? then Dim(e.size, e.size, e.num, e.num) else e.d
  }

  predicate IsBinary(e: Expr) { e.Add? || e.Subtract? || e.ElementwiseMultiply? }

  function OpOf(e: Expr): (f: Op)
    requires IsBinary(e)
  {
    if e.Add? then (x: real, y: real) => x + y
    else if e.Subtract? then (x: real, y: real) => x - y
    else (x: real, y: real) => x * y
  }

  // ---------- dimension inference ----------

  type Dims = map<string, Dim>

  /** The dimension the evaluator computes; None where it aborts. */
  function Infer(e: Expr, dims: Dims): (r: Option<Dim>) {
    match e
    case Identifier(x) => if x in dims then Some(dims[x]) else None
    case Zeros(d) => Some(d)
    case Ones(d) => Some(d)
    case Identity(size, num) => Some(Dim(size, size, num, num))
    case Paren(f) => Infer(f, dims)
    case DuplicateRowOf(f, size, num) =>
      var d := Infer(f, dims);
      if d.None? then None else Some(Dim(size, d.value.cs, num, d.value.cn))
    case DuplicateColOf(f, size, num) =>
      var d := Infer(f, dims);
      if d.None? then None else Some(Dim(d.value.rs, size, d.value.rn, num))
    case _ =>
      var l, r := Infer(e.left, dims), Infer(e.right, dims);
      if l.Some? && l == r then l else None
  }

  /** What duplication is right for, whatever the values: rows of a single block row, columns of a single block
      column with blocks of one column or one row. */
  predicate OnVector(e: Expr, d: Dim)
    requires IsDuplicate(e)
  {
    if e.DuplicateRowOf? then d.rn == 1 && d.rs >= 1 else d.cn == 1 && d.cs >= 1 && (d.cs == 1 || d.rs <= 1)
  }

  predicate IsDuplicate(e: Expr) { e.DuplicateRowOf? || e.DuplicateColOf? }

  /** Every duplication in the expression is applied to a vector, and every identifier is among the `clean`. */
  predicate Clean(e: Expr, dims: Dims, clean: set<string>) {
    if e.Identifier? then e.name in clean
    else if IsInitializer(e) then true
    else if e.Paren? then Clean(e.e, dims, clean)
    else if IsDuplicate(e) then
      var d := Infer(e.e, dims);
      Clean(e.e, dims, clean) && d.Some? && OnVector(e, d.value)
    else Clean(e.left, dims, clean) && Clean(e.right, dims, clean)
  }

  // ---------- the ordinary meaning ----------

  type Env = map<string, Matrix>

  /** The ordinary matrix an expression stands for, cell by cell. */
  function Meaning(e: Expr, env: Env): (m: Matrix) {
    match e
    case Identifier(x) => if x in env then env[x] else (r: int, c: int) => 0.0
    case Zeros(_) => (r: int, c: int) => 0.0
    case Ones(_) => (r: int, c: int) => 1.0
    case Identity(_, _) => (r: int, c: int) => if r == c then 1.0 else 0.0
    case Paren(f) => Meaning(f, env)
    case Add(left, right) =>
      var m1, m2 := Meaning(left, env), Meaning(right, env);
      (r: int, c: int) => m1(r, c) + m2(r, c)
    case Subtract(left, right) =>
      var m1, m2 := Meaning(left, env), Meaning(right, env);
      (r: int, c: int) => m1(r, c) - m2(r, c)
    case ElementwiseMultiply(left, right) =>
      var m1, m2 := Meaning(left, env), Meaning(right, env);
      (r: int, c: int) => m1(r, c) * m2(r, c)
    case DuplicateRowOf(f, _, _) => FirstRow(Meaning(f, env))
    case DuplicateColOf(f, _, _) => FirstColumn(Meaning(f, env))
  }

  lemma {:induction false} InitialMeaning(e: Expr, env: Env, bs: seq<MatrixBlock>)
    requires IsInitializer(e) && Represents(bs, InitDim(e), InitialMatrix(InitKind(e)))
    ensures Represents(bs, InitDim(e), Meaning(e, env))
  {
    RepresentsSame(bs, InitDim(e), InitialMatrix(InitKind(e)), Meaning(e, env));
  }

  /** The blocks of a join stand for the sums, differences or products of the cells. */
  lemma {:induction false} BinaryMeaning(e: Expr, env: Env, d: Dim, bs: seq<MatrixBlock>)
    requires IsBinary(e) && Represents(bs, d, Pointwise(OpOf(e), Meaning(e.left, env), Meaning(e.right, env)))
    ensures Represents(bs, d, Meaning(e, env))
  {
    var m := Pointwise(OpOf(e), Meaning(e.left, env), Meaning(e.right, env));
    forall r: int, c: int ensures m(r, c) == Meaning(e, env)(r, c) {
    }
    RepresentsSame(bs, d, m, Meaning(e, env));
  }

  function EnvAfter(prog: seq<Statement>): (env: Env) {
    if prog == [] then map[]
    else
      var env := EnvAfter(prog[..|prog| - 1]);
      var s := prog[|prog| - 1];
      env[s.id := Meaning(s.e, env)]
  }

  function DimsAfter(prog: seq<Statement>): (dims: Dims) {
    if prog == [] then map[]
    else
      var dims := DimsAfter(prog[..|prog| - 1]);
      var s := prog[|prog| - 1];
      var d := Infer(s.e, dims);
      if d.None? then dims else dims[s.id := d.value]
  }

  /** The identifiers whose value goes back to vector duplications only. */
  function CleanAfter(prog: seq<Statement>): (clean: set<string>) {
    if prog == [] then {}
    else
      var init, s := prog[..|prog| - 1], prog[|prog| - 1];
      if Clean(s.e, DimsAfter(init), CleanAfter(init)) then CleanAfter(init) + {s.id} else CleanAfter(init) - {s.id}
  }

  /** The two duplications, given the value of their operand. */
  method Duplicate(e: Expr, d: Dim, blocks: seq<MatrixBlock>, ghost m: Matrix) returns (t: Dim, copy: seq<MatrixBlock>)
    requires IsDuplicate(e) && Sized(blocks, d)
    ensures t == if e.DuplicateRowOf? then Dim(e.size, d.cs, e.num, d.cn) else Dim(d.rs, e.size, d.rn, e.num)
    ensures Sized(copy, t)
    ensures Represents(blocks, d, m) && OnVector(e, d) ==> Represents(copy, t, if e.DuplicateRowOf? then FirstRow(m) else FirstColumn(m))
    ensures e.DuplicateColOf? && Represents(blocks, d, m) && d.cn == 1 && d.cs >= 1 ==>
              (Represents(copy, t, FirstColumn(m)) <==> (t.cs >= 1 && t.cn >= 1 ==> LeadsWithColumn(d, m)))
    ensures Represents(blocks, d, m) && t.rn * t.cn > 0 ==> (if e.DuplicateRowOf? then d.rn >= 2 else d.cn >= 2) ==> !UniqueKeys(copy)
  {
    if e.DuplicateRowOf? {
      t := Dim(e.size, d.cs, e.num, d.cn);
      copy := DuplicateRows(blocks, t);
      RowCopiesSized(blocks, copy, d, t);
      if Represents(blocks, d, m) && OnVector(e, d) { DuplicateRowsRepresent(blocks, copy, d, t, m); }
      if Represents(blocks, d, m) && d.rn >= 2 && t.rn * t.cn > 0 {
        Factors(t.rn, t.cn);
        DuplicateRowsClash(blocks, copy, d, t, m);
      }
    } else {
      t := Dim(d.rs, e.size, d.rn, e.num);
      copy := DuplicateCols(blocks, t);
      ColCopiesSized(blocks, copy, d, t);
      if Represents(blocks, d, m) && OnVector(e, d) { DuplicateColsRepresent(blocks, copy, d, t, m); }
      if Represents(blocks, d, m) && d.cn == 1 && d.cs >= 1 { DuplicateColsDecide(blocks, copy, d, t, m); }
      if Represents(blocks, d, m) && d.cn >= 2 && t.rn * t.cn > 0 {
        Factors(t.rn, t.cn);
        DuplicateColsClash(blocks, copy, d, t, m);
      }
    }
  }

  /** The joins, given the values of their operands; two operands of one dimension never mismatch in size. */
  method Combined(e: Expr, d: Dim, left: seq<MatrixBlock>, right: seq<MatrixBlock>, ghost m1: Matrix, ghost m2: Matrix)
    returns (joined: seq<MatrixBlock>)
    requires IsBinary(e) && Sized(left, d) && Sized(right, d)
    ensures Sized(joined, d)
    ensures Represents(left, d, m1) && Represents(right, d, m2) ==> Represents(joined, d, Pointwise(OpOf(e), m1, m2))
  {
    SizedMeet(left, right, d);
    joined := Join(OpOf(e), left, right);
    JoinSized(OpOf(e), left, right, d);
    if Represents(left, d, m1) && Represents(right, d, m2) { JoinRepresents(OpOf(e), left, right, d, m1, m2); }
  }

  lemma {:induction false} Factors(m: nat, n: nat)
    requires m * n > 0
    ensures m >= 1 && n >= 1
  {
  }

  // ---------- the running instance ----------

  /** The name of a set: "LA_<method>_<count>" or "LA_computation_result_<identifier>". */
  datatype SetName = Dispatched(kind: Init, count: nat) | Result(id: string)

  /** How many blocks fit into each allocation block of a dispatch, given its number and its block count. */
  type Allocator = (nat, nat) -> seq<nat>

  ghost predicate MakesProgress(a: Allocator) {
    forall c: nat, n: nat :: n <= Total(a(c, n))
  }

  /** What is known of the blocks an identifier or an expression stands for. */
  ghost predicate Bound(bs: seq<MatrixBlock>, d: Dim, m: Matrix, clean: bool) {
    Sized(bs, d) && (clean ==> Represents(bs, d, m))
  }

  type Store = map<SetName, seq<MatrixBlock>>

  /** Sets are never changed or dropped, and only dispatched ones are new. */
  ghost predicate Grown(before: Store, after: Store) {
    && (forall n :: n in before ==> n in after && after[n] == before[n])
    && forall id :: Result(id) in after ==> Result(id) in before
  }

  class Instance {
    const allocator: Allocator
    /** The sets of the database, which are never changed once written. */
    var store: Store
    var cached: set<SetName>
    var names: map<string, SetName>
    var dims: Dims
    var dispatchCount: nat
    ghost var env: Env
    ghost var clean: set<string>

    ghost predicate Valid()
      reads this
    {
      && MakesProgress(allocator)
      && cached == store.Keys && names.Keys == dims.Keys == env.Keys
      && (forall n :: n in store && n.Dispatched? ==> n.count < dispatchCount)
      && clean <= names.Keys && forall x :: x in names ==> names[x] in store && Bound(store[names[x]], dims[x], env[x], x in clean)
    }

    constructor (allocator: Allocator)
      requires MakesProgress(allocator)
      ensures Valid() && env == map[] && dims == map[] && store == map[] && clean == {}
    {
      this.allocator := allocator;
      store, cached, names, dims, dispatchCount, env, clean := map[], {}, map[], map[], 0, map[], {};
    }

    /** `LAInitializerNode::evaluate`: a new set under the next number. The check that its name is new
        cannot fail. */
    method Initialize(e: Expr) returns (name: SetName)
      requires Valid() && IsInitializer(e)
      modifies this`store, this`cached, this`dispatchCount
      ensures Valid() && dispatchCount == old(dispatchCount) + 1
      ensures name !in old(store) && name.Dispatched? && name in store
      ensures forall n :: n in store <==> n in old(store) || n == name
      ensures forall n :: n in old(store) ==> store[n] == old(store)[n]
      ensures Represents(store[name], InitDim(e), Meaning(e, env))
    {
      var kind, d := InitKind(e), InitDim(e);
      name := Dispatched(kind, dispatchCount);
      var blocks, done := Dispatch(kind, d, allocator(dispatchCount, d.rn * d.cn));
      dispatchCount := dispatchCount + 1;
      assert name !in cached;
      InitialMeaning(e, env, blocks);
      store := store[name := blocks];
      cached := cached + {name};
    }

    /** The value of an expression; None is an abort. */
    method Evaluate(e: Expr) returns (r: Option<(Dim, seq<MatrixBlock>)>)
      requires Valid()
      modifies this`store, this`cached, this`dispatchCount
      ensures Valid() && dispatchCount >= old(dispatchCount)
      ensures Grown(old(store), store)
      ensures r.Some? <==> Infer(e, dims).Some?
      ensures r.Some? ==> r.value.0 == Infer(e, dims).value
      ensures r.Some? ==> Bound(r.value.1, r.value.0, Meaning(e, env), Clean(e, dims, clean))
      decreases e
    {
      if e.Identifier? {
        if e.name !in dims { return None; }
        r := Some((dims[e.name], store[names[e.name]]));
      } else if IsInitializer(e) {
        var name := Initialize(e);
        RepresentedIsSized(store[name], InitDim(e), Meaning(e, env));
        r := Some((InitDim(e), store[name]));
      } else if e.Paren? {
        r := Evaluate(e.e);
      } else if IsDuplicate(e) {
        var v := Evaluate(e.e);
        if v.None? { return None; }
        var t, blocks := Duplicate(e, v.value.0, v.value.1, Meaning(e.e, env));
        r := Some((t, blocks));
      } else {
        var l := Evaluate(e.left);
        var right := Evaluate(e.right);
        if l.None? || right.None? || l.value.0 != right.value.0 { return None; }
        var joined := Combined(e, l.value.0, l.value.1, right.value.1, Meaning(e.left, env), Meaning(e.right, env));
        if Clean(e, dims, clean) { BinaryMeaning(e, env, l.value.0, joined); }
        r := Some((l.value.0, joined));
      }
    }

    /** The two map updates that end a statement. */
    method Bind(id: string, name: SetName, d: Dim, ghost m: Matrix, ghost isClean: bool)
      requires Valid() && name in store && Bound(store[name], d, m, isClean)
      modifies this`names, this`dims, this`env, this`clean
      ensures Valid() && env == old(env)[id := m] && dims == old(dims)[id := d] && names == old(names)[id := name]
      ensures clean == if isClean then old(clean) + {id} else old(clean) - {id}
    {
      names, dims, env := names[id := name], dims[id := d], env[id := m];
      clean := if isClean then clean + {id} else clean - {id};
    }

    /** The result of a query is written to a set of its own. */
    method WriteResult(id: string, blocks: seq<MatrixBlock>)
      requires Valid() && Result(id) !in cached
      modifies this`store, this`cached
      ensures Valid() && Result(id) in store && store[Result(id)] == blocks
      ensures forall n :: n in store <==> n in old(store) || n == Result(id)
    {
      store, cached := store[Result(id) := blocks], cached + {Result(id)};
    }

    /** `evaluateQuery`: an initializer binds its own set; any other expression is written to the result set
        of the identifier, which must not exist yet. */
    method Execute(s: Statement) returns (ok: bool)
      requires Valid()
      modifies this
      ensures Valid()
      ensures ok <==> Infer(s.e, old(dims)).Some? && (IsInitializer(s.e) || Result(s.id) !in old(store))
      ensures ok ==> env == old(env)[s.id := Meaning(s.e, old(env))] && dims == old(dims)[s.id := Infer(s.e, old(dims)).value]
      ensures ok ==> clean == if Clean(s.e, old(dims), old(clean)) then old(clean) + {s.id} else old(clean) - {s.id}
      ensures forall id :: Result(id) in store <==> Result(id) in old(store) || (ok && id == s.id && !IsInitializer(s.e))
    {
      if IsInitializer(s.e) {
        var name := Initialize(s.e);
        RepresentedIsSized(store[name], InitDim(s.e), Meaning(s.e, env));
        Bind(s.id, name, InitDim(s.e), Meaning(s.e, env), true);
        ok := true;
      } else {
        var v := Evaluate(s.e);
        ok := v.Some? && Result(s.id) !in cached;
        if ok {
          WriteResult(s.id, v.value.1);
          Bind(s.id, Result(s.id), v.value.0, Meaning(s.e, env), Clean(s.e, dims, clean));
        }
      }
    }
  }

  // ---------- whole programs ----------

  /** Among the first `i` statements one computes `id` by a query. */
  predicate Computed(prog: seq<Statement>, i: nat, id: string)
    requires i <= |prog|
  {
    exists j :: 0 <= j < i && prog[j].id == id && !IsInitializer(prog[j].e)
  }

  /** Statement `i` is accepted: its dimensions fit, and a computed identifier is not computed again. */
  predicate Accepted(prog: seq<Statement>, i: nat)
    requires i < |prog|
  {
    Infer(prog[i].e, DimsAfter(prog[..i])).Some? && (IsInitializer(prog[i].e) || !Computed(prog, i, prog[i].id))
  }

  lemma {:induction false} AfterSnoc(init: seq<Statement>, s: Statement)
    ensures Infer(s.e, DimsAfter(init)).Some? ==> DimsAfter(init + [s]) == DimsAfter(init)[s.id := Infer(s.e, DimsAfter(init)).value]
    ensures EnvAfter(init + [s]) == EnvAfter(init)[s.id := Meaning(s.e, EnvAfter(init))]
    ensures CleanAfter(init + [s]) ==
            if Clean(s.e, DimsAfter(init), CleanAfter(init)) then CleanAfter(init) + {s.id} else CleanAfter(init) - {s.id}
  {
    assert (init + [s])[..|init|] == init;
  }

  lemma {:induction false} OneMore(prog: seq<Statement>, i: nat)
    requires i < |prog|
    ensures Infer(prog[i].e, DimsAfter(prog[..i])).Some? ==>
              DimsAfter(prog[..i + 1]) == DimsAfter(prog[..i])[prog[i].id := Infer(prog[i].e, DimsAfter(prog[..i])).value]
    ensures EnvAfter(prog[..i + 1]) == EnvAfter(prog[..i])[prog[i].id := Meaning(prog[i].e, EnvAfter(prog[..i]))]
    ensures CleanAfter(prog[..i + 1]) == (if Clean(prog[i].e, DimsAfter(prog[..i]), CleanAfter(prog[..i]))
                                          then CleanAfter(prog[..i]) + {prog[i].id} else CleanAfter(prog[..i]) - {prog[i].id})
    ensures forall id :: Computed(prog, i + 1, id) <==> Computed(prog, i, id) || (id == prog[i].id && !IsInitializer(prog[i].e))
  {
    assert prog[..i + 1] == prog[..i] + [prog[i]];
    AfterSnoc(prog[..i], prog[i]);
    forall id ensures Computed(prog, i + 1, id) <==> Computed(prog, i, id) || (id == prog[i].id && !IsInitializer(prog[i].e)) {
      ComputedStep(prog, i, id);
    }
  }

  lemma {:induction false} ComputedStep(prog: seq<Statement>, i: nat, id: string)
    requires i < |prog|
    ensures Computed(prog, i + 1, id) <==> Computed(prog, i, id) || (id == prog[i].id && !IsInitializer(prog[i].e))
  {
    if Computed(prog, i + 1, id) {
      var j :| 0 <= j < i + 1 && prog[j].id == id && !IsInitializer(prog[j].e);
      if j < i { assert Computed(prog, i, id); }
    }
    if Computed(prog, i, id) {
      var j :| 0 <= j < i && prog[j].id == id && !IsInitializer(prog[j].e);
      assert Computed(prog, i + 1, id);
    }
  }

  /** The instance stands where the first `i` statements leave it. */
  ghost predicate Reached(instance: Instance, prog: seq<Statement>, i: nat)
    requires i <= |prog|
    reads instance
  {
    && instance.Valid() && instance.env == EnvAfter(prog[..i]) && instance.dims == DimsAfter(prog[..i])
    && instance.clean == CleanAfter(prog[..i])
    && forall id :: Result(id) in instance.store <==> Computed(prog, i, id)
  }

  predicate AllAccepted(prog: seq<Statement>, n: nat)
    requires n <= |prog|
  {
    forall i :: 0 <= i < n ==> Accepted(prog, i)
  }

  method RunStatement(prog: seq<Statement>, i: nat, instance: Instance) returns (ok: bool)
    requires i < |prog| && Reached(instance, prog, i)
    modifies instance
    ensures ok <==> Accepted(prog, i)
    ensures ok ==> Reached(instance, prog, i + 1)
  {
    OneMore(prog, i);
    ok := instance.Execute(prog[i]);
  }

  /** A program runs to the end exactly when every statement is accepted; then every identifier is bound to
      blocks of its inferred dimension, and each one that goes back to vector duplications only to a complete
      grid whose flattened form is its ordinary value. */
  method RunProgram(prog: seq<Statement>, allocator: Allocator) returns (ok: bool, instance: Instance)
    requires MakesProgress(allocator)
    ensures ok <==> AllAccepted(prog, |prog|)
    ensures ok ==> instance.names.Keys == EnvAfter(prog).Keys == DimsAfter(prog).Keys
    ensures ok ==> forall x :: x in EnvAfter(prog) ==> Holds(instance, x, DimsAfter(prog), EnvAfter(prog), x in CleanAfter(prog))
  {
    instance := new Instance(allocator);
    for i := 0 to |prog|
      invariant fresh(instance) && Reached(instance, prog, i)
      invariant AllAccepted(prog, i)
    {
      ok := RunStatement(prog, i, instance);
      OneMoreAccepted(prog, i);
      if !ok { return; }
    }
    assert prog[..|prog|] == prog;
    AllBound(instance, prog);
    ok := true;
  }

  lemma {:induction false} OneMoreAccepted(prog: seq<Statement>, i: nat)
    requires i < |prog| && AllAccepted(prog, i)
    ensures AllAccepted(prog, i + 1) <==> Accepted(prog, i)
    ensures AllAccepted(prog, |prog|) ==> Accepted(prog, i)
  {
  }

  lemma {:induction false} AllBound(instance: Instance, prog: seq<Statement>)
    requires instance.Valid() && instance.env == EnvAfter(prog) && instance.dims == DimsAfter(prog) && instance.clean == CleanAfter(prog)
    ensures forall x :: x in EnvAfter(prog) ==> Holds(instance, x, DimsAfter(prog), EnvAfter(prog), x in CleanAfter(prog))
  {
  }

  ghost predicate Holds(instance: Instance, x: string, dims: Dims, env: Env, clean: bool)
    requires x in dims && x in env
    reads instance
  {
    && x in instance.names && instance.names[x] in instance.store
    && Bound(instance.store[instance.names[x]], dims[x], env[x], clean)
  }

  // ---------- programs over vectors ----------

  /** Every duplication in the expression is applied to a vector. */
  predicate OnVectors(e: Expr, dims: Dims) { Clean(e, dims, dims.Keys) }

  /** A program that duplicates vectors only has the ordinary value in every identifier. */
  lemma {:induction false} VectorProgramIsClean(prog: seq<Statement>)
    requires forall i :: 0 <= i < |prog| ==> Accepted(prog, i) && OnVectors(prog[i].e, DimsAfter(prog[..i]))
    ensures CleanAfter(prog) == DimsAfter(prog).Keys
  {
    if prog != [] {
      var n := |prog| - 1;
      var init := prog[..n];
      forall i | 0 <= i < n ensures Accepted(init, i) && OnVectors(init[i].e, DimsAfter(init[..i])) {
        assert init[..i] == prog[..i] && Accepted(prog, i);
        ComputedPrefix(prog, n, i, prog[i].id);
      }
      VectorProgramIsClean(init);
      assert Accepted(prog, n) && OnVectors(prog[n].e, DimsAfter(prog[..n]));
    }
  }

  lemma {:induction false} ComputedPrefix(prog: seq<Statement>, n: nat, i: nat, id: string)
    requires i <= n <= |prog|
    ensures Computed(prog[..n], i, id) <==> Computed(prog, i, id)
  {
    if Computed(prog, i, id) {
      var j :| 0 <= j < i && prog[j].id == id && !IsInitializer(prog[j].e);
      assert prog[..n][j] == prog[j];
    }
  }
}
