/** The numerical vector of the LDA aggregates: one non-zero entry kept sparsely until a second is needed. */
module LdaVector {

  /** The plain vector with `value` at `dim` and zero elsewhere. */
  function Single(n: nat, dim: nat, value: int): (r: seq<int>) {
    seq(n, i => if i == dim then value else 0)
  }

  function AddVectors(a: seq<int>, b: seq<int>): (r: seq<int>)
    requires |a| == |b|
  {
    seq(|a|, i requires 0 <= i < |a| => a[i] + b[i])
  }

  class NumericalVector {
    var numDims: nat
    var dim: nat
    var value: int
    var myData: array?<int>

    ghost predicate Valid()
      reads this
    {
      if myData == null then dim < numDims else myData.Length == numDims
    }

    /** The plain vector this object stands for. */
    ghost function Contents(): (s: seq<int>)
      requires Valid()
      reads this, myData
      ensures |s| == numDims
    {
      if myData == null then Single(numDims, dim, value) else myData[..]
    }

    constructor Sparse(numDims: nat, dim: nat, value: int)
      requires dim < numDims
      ensures Valid() && Contents() == Single(numDims, dim, value) && this.numDims == numDims && myData == null
    {
      this.numDims, this.dim, this.value, myData := numDims, dim, value, null;
    }

    constructor Dense(data: array<int>)
      ensures Valid() && myData == data && Contents() == data[..] && numDims == data.Length
    {
      numDims, dim, value, myData := data.Length, 0, 0, data;
    }

    /** `getVector`: makes the object dense without changing what it stands for. */
    method GetVector() returns (v: array<int>)
      requires Valid()
      modifies this`myData
      ensures Valid() && myData == v && Contents() == old(Contents())
      ensures if old(myData) == null then fresh(v) else v == old(myData)
    {
      if myData == null {
        var data := new int[numDims](i => 0);
        data[dim] := value;
        myData := data;
        assert data[..] == Single(numDims, dim, value);
      }
      v := myData;
    }

    /** `operator+=` in all four combinations of sparse and dense, also when both operands share storage. */
    method Add(other: NumericalVector)
      requires Valid() && other.Valid() && numDims == other.numDims
      modifies this, myData
      ensures Valid() && numDims == old(numDims)
      ensures Contents() == old(AddVectors(Contents(), other.Contents()))
      ensures myData == old(myData) || fresh(myData)
    {
      if other.myData == null {
        if myData == null {
          if dim == other.dim {
            value := value + other.value;
            assert Contents() == old(AddVectors(Contents(), other.Contents()));
          } else {
            var data := GetVector();
            data[other.dim] := other.value;
            assert Contents() == old(AddVectors(Contents(), other.Contents()));
          }
        } else {
          myData[other.dim] := myData[other.dim] + other.value;
          assert Contents() == old(AddVectors(Contents(), other.Contents()));
        }
      } else {
        var data := GetVector();
        AddInto(data, other.myData);
      }
    }
  }

  method AddInto(data: array<int>, his: array<int>)
    requires data.Length == his.Length
    modifies data
    ensures data[..] == old(AddVectors(data[..], his[..]))
  {
    for i := 0 to data.Length
      invariant forall j :: 0 <= j < i ==> data[j] == old(data[j]) + old(his[j])
      invariant forall j :: i <= j < data.Length ==> data[j] == old(data[j]) && his[j] == old(his[j])
    {
      data[i] := data[i] + his[i];
    }
  }

  // ---------- any tree of additions ----------

  datatype Terms = One(dim: nat, value: int) | Many(data: seq<int>) | Plus(left: Terms, right: Terms)

  predicate Fits(t: Terms, n: nat) {
    match t
    case One(d, _) => d < n
    case Many(s) => |s| == n
    case Plus(l, r) => Fits(l, n) && Fits(r, n)
  }

  /** Plain dense addition. */
  function PlainSum(t: Terms, n: nat): (r: seq<int>)
    requires Fits(t, n)
    ensures |r| == n
  {
    match t
    case One(d, v) => Single(n, d, v)
    case Many(s) => s
    case Plus(l, r) => AddVectors(PlainSum(l, n), PlainSum(r, n))
  }

  /** Whatever the shape of the additions and the mix of sparse and dense, the vector is the plain sum. */
  method Evaluate(t: Terms, n: nat) returns (r: seq<int>)
    requires Fits(t, n)
    ensures r == PlainSum(t, n)
  {
    var v := Reduce(t, n);
    var data := v.GetVector();
    r := data[..];
  }

  method Reduce(t: Terms, n: nat) returns (v: NumericalVector)
    requires Fits(t, n)
    ensures fresh(v) && (v.myData != null ==> fresh(v.myData))
    ensures v.Valid() && v.numDims == n && v.Contents() == PlainSum(t, n)
  {
    if t.One? {
      v := new NumericalVector.Sparse(n, t.dim, t.value);
    } else if t.Many? {
      var data := new int[n](i requires 0 <= i < n => t.data[i]);
      v := new NumericalVector.Dense(data);
      assert data[..] == t.data;
    } else {
      v := Reduce(t.left, n);
      var w := Reduce(t.right, n);
      v.Add(w);
    }
  }
}
