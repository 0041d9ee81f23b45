/** Static data (simulatron-salt, codegen.rs): declared and inferred dimensions, sizes, initialisers. */
module DataItems {
  import opened Bytes
  import opened Wrappers
  import opened InstructionSet
  import opened SaltEncoding
  import opened ArrayLiterals

  /** A dimension of a data type: stated, or inferred from the initialiser. */
  datatype ArrayLength = Stated(n: nat) | Inferred

  datatype DataError = DimensionsMismatch | InitialiserTooLong | SizeOutOfRange

  /** The size and initial bytes of an item; `complete` unless some value did not fit its type. */
  datatype Item = Item(size: nat, initialiser: seq<Byte>, complete: bool)

  /** Sizes are 64 bits wide. */
  const SIZE_LIMIT: nat := 0x1_0000_0000_0000_0000

  function Unify(types: seq<ArrayLength>, dims: seq<nat>): (unified: seq<nat>)
    requires |types| == |dims|
    ensures |unified| == |dims|
  {
    seq(|dims|, i requires 0 <= i < |dims| => if types[i].Stated? then types[i].n else dims[i])
  }

  /** Some stated dimension is too small for the initialiser. */
  predicate TooSmall(types: seq<ArrayLength>, dims: seq<nat>)
    requires |types| == |dims|
  {
    exists i :: 0 <= i < |dims| && types[i].Stated? && types[i].n < dims[i]
  }

  /** The product with a base, multiplied up from the left, as long as it stays in range. */
  function CheckedProduct(base: nat, dims: seq<nat>, n: nat): Option<nat>
    requires n <= |dims|
  {
    if n == 0 then Some(base)
    else
      match CheckedProduct(base, dims, n - 1)
      case None => None
      case Some(size) => if size * dims[n - 1] < SIZE_LIMIT then Some(size * dims[n - 1]) else None
  }

  lemma {:induction false} ProductOfMore(dims: seq<nat>, d: nat)
    ensures Product(dims + [d]) == Product(dims) * d
    decreases |dims|
  {
    if dims == [] {
      assert [] + [d] == [d] && [d][1..] == [];
    } else {
      ProductOfMore(dims[1..], d);
      assert (dims + [d])[1..] == dims[1..] + [d];
      assert dims[0] * (Product(dims[1..]) * d) == dims[0] * Product(dims[1..]) * d;
    }
  }

  lemma {:induction false} CheckedIsProduct(base: nat, dims: seq<nat>, n: nat)
    requires n <= |dims| && CheckedProduct(base, dims, n).Some?
    ensures CheckedProduct(base, dims, n).value == base * Product(dims[..n])
  {
    if n > 0 {
      CheckedIsProduct(base, dims, n - 1);
      ProductOfMore(dims[..n - 1], dims[n - 1]);
      assert dims[..n] == dims[..n - 1] + [dims[n - 1]];
      assert base * (Product(dims[..n - 1]) * dims[n - 1]) == base * Product(dims[..n - 1]) * dims[n - 1];
    }
  }

  /** The size of the first `i` dimensions together is out of range. */
  ghost predicate PrefixTooBig(base: nat, dims: seq<nat>, i: nat) {
    i <= |dims| && base * Product(dims[..i]) >= SIZE_LIMIT
  }

  /** Some prefix of the dimensions is out of range, whether or not a later dimension is zero. */
  ghost predicate TooBig(base: nat, dims: seq<nat>) {
    exists i: nat :: PrefixTooBig(base, dims, i)
  }

  /** Multiplying up fails exactly if some prefix of the dimensions is out of range. */
  lemma {:induction false} OutOfRangeExactly(base: nat, dims: seq<nat>, n: nat)
    requires n <= |dims| && base < SIZE_LIMIT
    ensures CheckedProduct(base, dims, n).None? <==> exists i: nat :: i <= n && PrefixTooBig(base, dims, i)
  {
    hide Product;
    if n == 0 {
      assert dims[..0] == [];
      ProductOfNone(base);
    } else {
      OutOfRangeExactly(base, dims, n - 1);
      if CheckedProduct(base, dims, n - 1).Some? {
        ProductOneMore(base, dims, n);
        assert PrefixTooBig(base, dims, n) <==> CheckedProduct(base, dims, n).None?;
      }
    }
  }

  lemma ProductOfNone(base: nat)
    ensures base * Product([]) == base
  {}

  lemma ProductOneMore(base: nat, dims: seq<nat>, n: nat)
    requires 0 < n <= |dims| && CheckedProduct(base, dims, n - 1).Some?
    ensures base * Product(dims[..n]) == CheckedProduct(base, dims, n - 1).value * dims[n - 1]
  {
    CheckedIsProduct(base, dims, n - 1);
    ProductOfMore(dims[..n - 1], dims[n - 1]);
    assert dims[..n] == dims[..n - 1] + [dims[n - 1]];
    assert base * (Product(dims[..n - 1]) * dims[n - 1]) == base * Product(dims[..n - 1]) * dims[n - 1];
  }

  lemma TooBigExactly(base: nat, dims: seq<nat>)
    requires base < SIZE_LIMIT
    ensures CheckedProduct(base, dims, |dims|).None? <==> TooBig(base, dims)
  {
    hide Product;
    OutOfRangeExactly(base, dims, |dims|);
    if i: nat :| PrefixTooBig(base, dims, i) {
      assert i <= |dims|;
    }
  }

  lemma {:induction false} EarlyOverflow(base: nat, dims: seq<nat>, i: nat, n: nat)
    requires i <= n <= |dims| && CheckedProduct(base, dims, i).None?
    ensures CheckedProduct(base, dims, n).None?
    decreases n
  {
    if i < n {
      EarlyOverflow(base, dims, i, n - 1);
    }
  }

  /** A base type's size in bytes. */
  predicate IsBaseSize(base: nat) { base == 1 || base == 2 || base == 4 }

  function TypeOfSize(base: nat): RegisterType {
    if base == 1 then ByteReg else if base == 2 then HalfReg else WordReg
  }

  /** The bytes of the first `n` values, up to the first that does not fit the type. */
  function InitialBytes(values: seq<Literal>, base: nat, env: Environment, n: nat): (r: Item)
    requires n <= |values| && IsBaseSize(base)
    ensures |r.initialiser| <= base * n && (r.complete ==> |r.initialiser| == base * n)
  {
    if n == 0 then Item(0, [], true)
    else
      var before := InitialBytes(values, base, env, n - 1);
      var bytes := LiteralBytes(values[n - 1], TypeOfSize(base), env);
      if !before.complete || bytes.None? then Item(0, before.initialiser, false)
      else
        LiteralLength(values[n - 1], base, env);
        Item(0, before.initialiser + bytes.value, true)
  }

  lemma LiteralLength(literal: Literal, base: nat, env: Environment)
    requires IsBaseSize(base) && LiteralBytes(literal, TypeOfSize(base), env).Some?
    ensures |LiteralBytes(literal, TypeOfSize(base), env).value| == base
  {}

  lemma {:induction false} IncompleteStays(values: seq<Literal>, base: nat, env: Environment, i: nat, n: nat)
    requires i <= n <= |values| && IsBaseSize(base) && !InitialBytes(values, base, env, i).complete
    ensures InitialBytes(values, base, env, n) == InitialBytes(values, base, env, i)
    decreases n
  {
    if i < n {
      IncompleteStays(values, base, env, i, n - 1);
    }
  }

  /** The bytes, padded with zeros to the size. */
  function Padded(bytes: seq<Byte>, size: nat): (padded: seq<Byte>)
    requires |bytes| <= size
    ensures |padded| == size && bytes <= padded
    ensures forall k :: |bytes| <= k < size ==> padded[k] == 0
  {
    bytes + seq(size - |bytes|, _ => 0)
  }

  /** An initialiser whose dimensions have been unified with the type's never exceeds the size. */
  lemma UnifiedHasRoom(types: seq<ArrayLength>, literal: ArrayLit)
    requires |types| == |DimsOf(literal)| && !TooSmall(types, DimsOf(literal))
    ensures |ValuesOf(literal)| <= Product(Unify(types, DimsOf(literal)))
  {
    hide Product, ValuesOf, DimsOf;
    var dims := DimsOf(literal);
    var unified := Unify(types, dims);
    ValuesFitDimensions(literal);
    forall i | 0 <= i < |unified| ensures DimAt(dims, i) <= unified[i] {}
    ProductBelow(dims, unified);
  }

  /** What the declaration of a data item comes to. */
  ghost predicate IsItem(types: seq<ArrayLength>, base: nat, literal: ArrayLit, env: Environment, r: Result<Item, DataError>)
    requires IsBaseSize(base)
  {
    var dims := DimsOf(literal);
    if |types| != |dims| then r == Err(DimensionsMismatch)
    else if TooSmall(types, dims) then r == Err(InitialiserTooLong)
    else
      var unified := Unify(types, dims);
      if TooBig(base, unified) then r == Err(SizeOutOfRange)
      else
        var bytes := InitialBytes(ValuesOf(literal), base, env, |ValuesOf(literal)|);
        var size := base * Product(unified);
        && r.Ok? && r.value.size == size
        && |r.value.initialiser| == size && bytes.initialiser <= r.value.initialiser
        && (forall k :: |bytes.initialiser| <= k < size ==> r.value.initialiser[k] == 0)
        && r.value.complete == bytes.complete
  }

  /** Add one data item. An accepted item's initialiser has exactly its size, values first and zeros
      after; the check for an initialiser that outgrew its size is never taken. */
  method AddData(types: seq<ArrayLength>, base: nat, literal: ArrayLit, env: Environment) returns (r: Result<Item, DataError>)
    requires IsBaseSize(base)
    ensures IsItem(types, base, literal, env, r)
    ensures r.Ok? ==> |r.value.initialiser| == r.value.size < SIZE_LIMIT
  {
    hide Product, ValuesOf, DimsOf, InitialBytes, TooBig;
    var values, initDims := Values(literal);
    ghost var dims := initDims;
    if |types| != |initDims| {
      return Err(DimensionsMismatch);
    }
    for i := 0 to |types|
      invariant |initDims| == |dims|
      invariant forall k :: 0 <= k < i ==> !(types[k].Stated? && types[k].n < dims[k]) && initDims[k] == Unify(types, dims)[k]
      invariant forall k :: i <= k < |dims| ==> initDims[k] == dims[k]
    {
      if types[i].Stated? {
        var d := types[i].n;
        if d < initDims[i] {
          return Err(InitialiserTooLong);
        }
        initDims := initDims[i := d];
      }
    }
    assert initDims == Unify(types, dims);
    var size := TotalSize(base, initDims);
    TooBigExactly(base, initDims);
    if size.None? {
      return Err(SizeOutOfRange);
    }
    CheckedIsProduct(base, initDims, |initDims|);
    assert initDims[..|initDims|] == initDims;
    UnifiedHasRoom(types, literal);
    ProductsOrdered(base, |values|, base, Product(initDims));
    var bytes, complete := Initialise(values, base, env);
    assert |bytes| <= size.value;
    return Ok(Item(size.value, Padded(bytes, size.value), complete));
  }

  method TotalSize(base: nat, dims: seq<nat>) returns (size: Option<nat>)
    requires IsBaseSize(base)
    ensures size == CheckedProduct(base, dims, |dims|)
    ensures size.Some? ==> size.value < SIZE_LIMIT
  {
    var product := base;
    for i := 0 to |dims|
      invariant CheckedProduct(base, dims, i) == Some(product) && product < SIZE_LIMIT
    {
      if product * dims[i] >= SIZE_LIMIT {
        EarlyOverflow(base, dims, i + 1, |dims|);
        return None;
      }
      product := product * dims[i];
    }
    return Some(product);
  }

  /** Convert the values one by one, stopping at the first that is too big for the type. */
  method Initialise(values: seq<Literal>, base: nat, env: Environment) returns (bytes: seq<Byte>, complete: bool)
    requires IsBaseSize(base)
    ensures var r := InitialBytes(values, base, env, |values|); bytes == r.initialiser && complete == r.complete
    ensures |bytes| <= base * |values|
  {
    hide LiteralBytes;
    bytes := [];
    for i := 0 to |values|
      invariant InitialBytes(values, base, env, i) == Item(0, bytes, true)
    {
      var converted := LiteralBytes(values[i], TypeOfSize(base), env);
      if converted.None? {
        IncompleteStays(values, base, env, i + 1, |values|);
        return bytes, false;
      }
      bytes := bytes + converted.value;
    }
    complete := true;
  }
}
