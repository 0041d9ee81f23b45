/** Array literals, their dimensions, and the initialisers built from them (simulatron-salt, ast.rs and
    codegen.rs). */
module ArrayLiterals {
  import opened SaltEncoding

  /** A literal, a string of characters, or elements in brackets. */
  datatype ArrayLit = Scalar(literal: Literal) | Text(characters: seq<Literal>) | Nested(elements: seq<ArrayLit>)

  // ----- Values and dimensions -----

  function ValuesOf(a: ArrayLit): seq<Literal>
    decreases a
  {
    match a
    case Scalar(literal) => [literal]
    case Text(characters) => characters
    case Nested(elements) => AllValues(elements)
  }

  function AllValues(elements: seq<ArrayLit>): seq<Literal>
    decreases elements
  {
    if elements == [] then [] else AllValues(elements[..|elements| - 1]) + ValuesOf(elements[|elements| - 1])
  }

  /** The dimension at position `i`, where missing ones count as one. */
  function DimAt(dims: seq<nat>, i: nat): nat {
    if i < |dims| then dims[i] else 1
  }

  function Max(x: nat, y: nat): nat {
    if x < y then y else x
  }

  function DimsOf(a: ArrayLit): (dims: seq<nat>)
    ensures |dims| > 0
    decreases a
  {
    match a
    case Scalar(_) => [1]
    case Text(characters) => [|characters|, 1]
    case Nested(elements) =>
      [|elements|] + seq(if elements == [] then 1 else Depth(elements), i requires i >= 0 => Widest(elements, i))
  }

  /** The largest number of dimensions of any element. */
  function Depth(elements: seq<ArrayLit>): (n: nat)
    ensures elements != [] ==> n > 0
    decreases elements
  {
    if elements == [] then 0
    else Max(Depth(elements[..|elements| - 1]), |DimsOf(elements[|elements| - 1])|)
  }

  /** The largest dimension of any element at position `i`, and at least one. */
  function Widest(elements: seq<ArrayLit>, i: nat): (n: nat)
    ensures n >= 1
    decreases elements
  {
    if elements == [] then 1
    else Max(Widest(elements[..|elements| - 1], i), DimAt(DimsOf(elements[|elements| - 1]), i))
  }

  function Product(dims: seq<nat>): nat {
    if dims == [] then 1 else dims[0] * Product(dims[1..])
  }

  // ----- Arithmetic of products -----

  lemma ProductsOrdered(a: nat, b: nat, x: nat, y: nat)
    requires a <= x && b <= y
    ensures a * b <= x * y
  {
    assert x * y == a * b + a * (y - b) + (x - a) * y;
  }

  /** `a` is no larger than `b` in any dimension, missing ones counting as one. */
  predicate Below(a: seq<nat>, b: seq<nat>) {
    |a| <= |b| && forall i :: 0 <= i < |b| ==> DimAt(a, i) <= b[i]
  }

  lemma {:induction false} ProductBelow(a: seq<nat>, b: seq<nat>)
    requires Below(a, b)
    ensures Product(a) <= Product(b)
    decreases |b|
  {
    if a != [] {
      assert DimAt(a, 0) == a[0];
      forall i | 0 <= i < |b| - 1 ensures DimAt(a[1..], i) <= b[1..][i] {
        assert DimAt(a, i + 1) <= b[i + 1];
      }
      ProductBelow(a[1..], b[1..]);
      ProductsOrdered(a[0], Product(a[1..]), b[0], Product(b[1..]));
    } else if b != [] {
      assert DimAt(a, 0) == 1;
      forall i | 0 <= i < |b| - 1 ensures DimAt([], i) <= b[1..][i] {
        assert DimAt(a, i + 1) <= b[i + 1];
      }
      ProductBelow([], b[1..]);
      ProductsOrdered(1, 1, b[0], Product(b[1..]));
    }
  }

  // ----- The bound -----

  lemma {:induction false} ElementBelow(elements: seq<ArrayLit>, k: nat, i: nat)
    requires k < |elements|
    ensures |DimsOf(elements[k])| <= Depth(elements) && DimAt(DimsOf(elements[k]), i) <= Widest(elements, i)
    decreases |elements|
  {
    hide DimsOf;
    if k < |elements| - 1 {
      ElementBelow(elements[..|elements| - 1], k, i);
    }
  }

  lemma ElementDimsBelow(elements: seq<ArrayLit>, k: nat)
    requires k < |elements|
    ensures Below(DimsOf(elements[k]), DimsOf(Nested(elements))[1..])
  {
    hide Depth, Widest;
    var rest := DimsOf(Nested(elements))[1..];
    ElementBelow(elements, k, 0);
    forall i | 0 <= i < |rest| ensures DimAt(DimsOf(elements[k]), i) <= rest[i] {
      ElementBelow(elements, k, i);
    }
  }

  lemma {:induction false} AllValuesBounded(elements: seq<ArrayLit>, n: nat, bound: nat)
    requires n <= |elements| && forall k :: 0 <= k < |elements| ==> |ValuesOf(elements[k])| <= bound
    ensures |AllValues(elements[..n])| <= n * bound
  {
    hide ValuesOf;
    if n > 0 {
      AllValuesBounded(elements, n - 1, bound);
      assert elements[..n][..n - 1] == elements[..n - 1];
      assert n * bound == (n - 1) * bound + bound;
    }
  }

  /** However it is nested, an array literal has at most as many values as its dimensions have room for. */
  lemma {:induction false} ValuesFitDimensions(a: ArrayLit)
    ensures |ValuesOf(a)| <= Product(DimsOf(a))
    decreases a
  {
    match a {
      case Scalar(_) => assert Product([1]) == 1 * Product([]);
      case Text(characters) =>
        assert Product([|characters|, 1]) == |characters| * Product([1]);
        assert Product([1]) == 1 * Product([]);
      case Nested(elements) =>
        hide DimsOf, Product, AllValues;
        var dims := DimsOf(a);
        forall k | 0 <= k < |elements| ensures |ValuesOf(elements[k])| <= Product(dims[1..]) {
          ValuesFitDimensions(elements[k]);
          ElementDimsBelow(elements, k);
          ProductBelow(DimsOf(elements[k]), dims[1..]);
        }
        AllValuesBounded(elements, |elements|, Product(dims[1..]));
        assert elements[..|elements|] == elements;
        NestedProduct(elements);
    }
  }

  lemma NestedProduct(elements: seq<ArrayLit>)
    ensures Product(DimsOf(Nested(elements))) == |elements| * Product(DimsOf(Nested(elements))[1..])
  {}

  // ----- Row-major order -----

  /** All elements have the same shape, all the way down. */
  predicate Rectangular(a: ArrayLit, dims: seq<nat>)
    decreases a
  {
    match a
    case Scalar(_) => dims == [1]
    case Text(characters) => dims == [|characters|, 1]
    case Nested(elements) =>
      && |dims| > 1 && dims[0] == |elements|
      && forall k :: 0 <= k < |elements| ==> Rectangular(elements[k], dims[1..])
  }

  predicate ValidIndices(dims: seq<nat>, indices: seq<nat>) {
    |indices| == |dims| && forall i :: 0 <= i < |dims| ==> indices[i] < dims[i]
  }

  function RowMajor(dims: seq<nat>, indices: seq<nat>): nat
    requires |indices| == |dims|
  {
    if dims == [] then 0 else indices[0] * Product(dims[1..]) + RowMajor(dims[1..], indices[1..])
  }

  /** The value found by following the indices into the literal. */
  function ValueAt(a: ArrayLit, dims: seq<nat>, indices: seq<nat>): Literal
    requires Rectangular(a, dims) && ValidIndices(dims, indices)
    decreases a
  {
    match a
    case Scalar(literal) => literal
    case Text(characters) => characters[indices[0]]
    case Nested(elements) => ValueAt(elements[indices[0]], dims[1..], indices[1..])
  }

  lemma ProductOfOne()
    ensures Product([1]) == 1
  {
    assert Product([1]) == 1 * Product([]);
  }

  /** A rectangular literal fills its dimensions completely. */
  lemma {:induction false} RectangularIsFull(a: ArrayLit, dims: seq<nat>)
    requires Rectangular(a, dims)
    ensures |ValuesOf(a)| == Product(dims)
    decreases a
  {
    ProductOfOne();
    match a {
      case Scalar(_) =>
      case Text(characters) => assert dims[1..] == [1];
      case Nested(elements) =>
        hide Product, AllValues;
        forall k | 0 <= k < |elements| ensures |ValuesOf(elements[k])| == Product(dims[1..]) {
          RectangularIsFull(elements[k], dims[1..]);
        }
        RowsAdd(elements, |elements|, Product(dims[1..]));
        assert elements[..|elements|] == elements;
        ProductUnfolds(dims);
    }
  }

  lemma ProductUnfolds(dims: seq<nat>)
    requires dims != []
    ensures Product(dims) == dims[0] * Product(dims[1..])
  {}

  lemma {:induction false} RowsAdd(elements: seq<ArrayLit>, n: nat, size: nat)
    requires n <= |elements| && forall k :: 0 <= k < |elements| ==> |ValuesOf(elements[k])| == size
    ensures |AllValues(elements[..n])| == n * size
  {
    hide ValuesOf;
    if n > 0 {
      RowsAdd(elements, n - 1, size);
      assert elements[..n][..n - 1] == elements[..n - 1];
      assert n * size == (n - 1) * size + size;
    }
  }

  /** Value `j` of row `k` is at `k * size + j`. */
  lemma {:induction false} RowStartsAt(elements: seq<ArrayLit>, n: nat, size: nat, k: nat, j: nat)
    requires k < n <= |elements| && j < size && forall i :: 0 <= i < |elements| ==> |ValuesOf(elements[i])| == size
    ensures k * size + j < |AllValues(elements[..n])|
    ensures AllValues(elements[..n])[k * size + j] == ValuesOf(elements[k])[j]
  {
    hide ValuesOf;
    RowsAdd(elements, n - 1, size);
    assert elements[..n][..n - 1] == elements[..n - 1];
    if k < n - 1 {
      RowStartsAt(elements, n - 1, size, k, j);
    }
  }

  lemma {:induction false} OffsetInside(dims: seq<nat>, indices: seq<nat>)
    requires ValidIndices(dims, indices)
    ensures RowMajor(dims, indices) < Product(dims)
  {
    if dims != [] {
      OffsetInside(dims[1..], indices[1..]);
      var rows := Product(dims[1..]);
      ProductsOrdered(indices[0] + 1, rows, dims[0], rows);
      assert (indices[0] + 1) * rows == indices[0] * rows + rows;
    }
  }

  /** In a rectangular literal every element sits at its row-major offset. */
  lemma {:induction false} RowMajorOrder(a: ArrayLit, dims: seq<nat>, indices: seq<nat>)
    requires Rectangular(a, dims) && ValidIndices(dims, indices)
    ensures RowMajor(dims, indices) < |ValuesOf(a)|
    ensures ValuesOf(a)[RowMajor(dims, indices)] == ValueAt(a, dims, indices)
    decreases a
  {
    RectangularIsFull(a, dims);
    OffsetInside(dims, indices);
    ProductOfOne();
    match a {
      case Scalar(_) =>
      case Text(characters) =>
        assert dims[1..] == [1] && indices[1..] == [0];
        assert RowMajor([1], [0]) == 0 * Product([1][1..]) + RowMajor([1][1..], [0][1..]);
      case Nested(elements) =>
        hide Product, AllValues;
        var size := Product(dims[1..]);
        forall k | 0 <= k < |elements| ensures |ValuesOf(elements[k])| == size {
          RectangularIsFull(elements[k], dims[1..]);
        }
        RowMajorOrder(elements[indices[0]], dims[1..], indices[1..]);
        OffsetInside(dims[1..], indices[1..]);
        RowStartsAt(elements, |elements|, size, indices[0], RowMajor(dims[1..], indices[1..]));
        assert elements[..|elements|] == elements;
    }
  }

  lemma {:induction false} RectangularDims(a: ArrayLit, dims: seq<nat>)
    requires Rectangular(a, dims)
    ensures DimsOf(a) == dims || (exists i :: 0 <= i < |dims| && dims[i] == 0)
    decreases a
  {
    if a.Nested? && (forall i :: 0 <= i < |dims| ==> dims[i] != 0) {
      var elements := a.elements;
      forall k | 0 <= k < |elements| ensures DimsOf(elements[k]) == dims[1..] {
        RectangularDims(elements[k], dims[1..]);
      }
      SameElements(elements, dims[1..]);
    }
  }

  lemma {:induction false} SameElements(elements: seq<ArrayLit>, dims: seq<nat>)
    requires elements != [] && dims != [] && (forall i :: 0 <= i < |dims| ==> dims[i] != 0)
    requires forall k :: 0 <= k < |elements| ==> DimsOf(elements[k]) == dims
    ensures Depth(elements) == |dims| && forall i :: 0 <= i < |dims| ==> Widest(elements, i) == dims[i]
    decreases |elements|
  {
    hide DimsOf;
    var before := elements[..|elements| - 1];
    if before != [] {
      SameElements(before, dims);
    }
  }

  // ----- Computing them -----

  /** The source's computation: flatten the elements, and take the largest dimensions. */
  method Values(a: ArrayLit) returns (values: seq<Literal>, dims: seq<nat>)
    ensures values == ValuesOf(a) && dims == DimsOf(a)
    ensures |values| <= Product(dims)
    decreases a
  {
    ValuesFitDimensions(a);
    match a {
      case Scalar(literal) => return [literal], [1];
      case Text(characters) => return characters, [|characters|, 1];
      case Nested(elements) =>
        var childDims: seq<seq<nat>> := [];
        values := [];
        for k := 0 to |elements|
          invariant values == AllValues(elements[..k]) && |childDims| == k
          invariant forall j :: 0 <= j < k ==> childDims[j] == DimsOf(elements[j])
        {
          var childValues, dims := Values(elements[k]);
          values := values + childValues;
          childDims := childDims + [dims];
          assert elements[..k + 1][..k] == elements[..k];
        }
        assert elements[..|elements|] == elements;
        dims := MaximumDims(childDims, elements);
    }
  }

  method MaximumDims(childDims: seq<seq<nat>>, ghost elements: seq<ArrayLit>) returns (dims: seq<nat>)
    requires |childDims| == |elements| && forall j :: 0 <= j < |elements| ==> childDims[j] == DimsOf(elements[j])
    ensures dims == DimsOf(Nested(elements))
  {
    hide DimsOf;
    var depth := 0;
    for j := 0 to |childDims|
      invariant depth == Depth(elements[..j])
    {
      assert elements[..j + 1][..j] == elements[..j];
      depth := if depth < |childDims[j]| then |childDims[j]| else depth;
    }
    assert elements[..|elements|] == elements;
    if childDims == [] {
      depth := 1;
    }
    var widest: seq<nat> := seq(depth, _ => 1);
    for j := 0 to |childDims|
      invariant |widest| == depth && forall i :: 0 <= i < depth ==> widest[i] == Widest(elements[..j], i)
    {
      assert elements[..j + 1][..j] == elements[..j];
      ghost var before := widest;
      for i := 0 to depth
        invariant |widest| == depth
        invariant forall k :: 0 <= k < i ==> widest[k] == Max(before[k], DimAt(childDims[j], k))
        invariant forall k :: i <= k < depth ==> widest[k] == before[k]
      {
        var dim := if i < |childDims[j]| then childDims[j][i] else 1;
        if dim > widest[i] {
          widest := widest[i := dim];
        }
      }
    }
    dims := [|childDims|] + widest;
    DimsAre(elements, dims);
  }

  lemma DimsAre(elements: seq<ArrayLit>, dims: seq<nat>)
    requires |dims| == 1 + if elements == [] then 1 else Depth(elements)
    requires dims[0] == |elements| && forall i :: 0 <= i < |dims| - 1 ==> dims[i + 1] == Widest(elements, i)
    ensures dims == DimsOf(Nested(elements))
  {}
}
