/** How the assembler's symbol table is filled from the declarations of a program (simulatron-salt,
    codegen.rs). */
module Declarations {
  import opened Bytes
  import opened Wrappers
  import opened SaltEncoding
  import opened SaltSymbols
  import opened ArrayLiterals
  import opened DataItems
  import opened Assembling

  /** A label stands before an instruction, unless none follows it. */
  datatype Declaration =
    | ConstDecl(name: string, isPublic: bool, value: Literal)
    | DataDecl(name: string, isPublic: bool, mutable: bool, types: seq<ArrayLength>, base: nat, literal: ArrayLit)
    | LabelDecl(name: string, isPublic: bool, instruction: Option<nat>)

  ghost predicate ValidDeclaration(d: Declaration, instructions: nat) {
    match d
    case DataDecl(_, _, _, _, base, _) => IsBaseSize(base)
    case LabelDecl(_, _, instruction) => instruction.Some? ==> instruction.value < instructions
    case _ => true
  }

  ghost predicate ValidDeclarations(declarations: seq<Declaration>, instructions: nat) {
    forall i :: 0 <= i < |declarations| ==> ValidDeclaration(declarations[i], instructions)
  }

  /** What a data declaration comes to when the symbols declared before it are known. */
  ghost predicate ItemOf(d: Declaration, env: Environment, r: Result<Item, DataError>) {
    d.DataDecl? && IsBaseSize(d.base) && IsItem(d.types, d.base, d.literal, env, r)
  }

  /** The symbol is what the declaration says. */
  ghost predicate IsDeclared(d: Declaration, env: Environment, symbol: Symbol) {
    match d
    case ConstDecl(_, isPublic, value) => symbol == ConstantSymbol(isPublic, value)
    case DataDecl(_, isPublic, mutable, _, _, _) =>
      && symbol.DataSymbol? && symbol == DataSymbol(isPublic, mutable, symbol.size, symbol.initialiser, [])
      && ItemOf(d, env, Ok(Item(symbol.size, symbol.initialiser, true)))
    case LabelDecl(_, isPublic, instruction) =>
      instruction.Some? && symbol == LabelSymbol(isPublic, Before(instruction.value), [])
  }

  /** The table holds exactly the first `n` declarations, each under a name of its own. */
  ghost predicate Populated(symbols: Symbols, declarations: seq<Declaration>, n: nat)
    requires n <= |declarations|
    decreases n, 1
  {
    if n == 0 then symbols == map[]
    else exists before, symbol :: Adds(before, symbol, symbols, declarations, n)
  }

  ghost predicate Adds(before: Symbols, symbol: Symbol, symbols: Symbols, declarations: seq<Declaration>, n: nat)
    requires 0 < n <= |declarations|
    decreases n, 0
  {
    var d := declarations[n - 1];
    && Populated(before, declarations, n - 1) && d.name !in before
    && IsDeclared(d, EnvironmentOf(before), symbol) && symbols == before[d.name := symbol]
  }

  /** Why a declaration is an error after the given ones. */
  ghost predicate Refused(d: Declaration, before: Symbols) {
    || d.name in before
    || (d.LabelDecl? && d.instruction.None?)
    || exists r :: ItemOf(d, EnvironmentOf(before), r) && !Usable(r)
  }

  /** Every value fits its type, and the size is one of a 32-bit machine. */
  predicate Usable(r: Result<Item, DataError>) {
    r.Ok? && r.value.complete && r.value.size < WORD_LIMIT
  }

  ghost predicate FirstRefused(before: Symbols, declarations: seq<Declaration>, i: nat) {
    i < |declarations| && Populated(before, declarations, i) && Refused(declarations[i], before)
  }

  /** Fill the table: it holds all declarations, or one of them is an error. */
  method Populate(declarations: seq<Declaration>, instructions: nat) returns (r: Result<Symbols, nat>)
    requires ValidDeclarations(declarations, instructions)
    ensures r.Ok? ==> Populated(r.value, declarations, |declarations|) && Fresh(r.value, instructions)
    ensures r.Err? ==> exists before :: FirstRefused(before, declarations, r.error)
  {
    hide IsItem, EnvironmentOf, Populated;
    var symbols: Symbols := map[];
    NothingDeclared(declarations);
    for i := 0 to |declarations|
      invariant Populated(symbols, declarations, i)
    {
      var d := declarations[i];
      assert ValidDeclaration(d, instructions);
      var symbol := Declare(d, symbols);
      if symbol.None? || d.name in symbols {
        assert FirstRefused(symbols, declarations, i);
        return Err(i);
      }
      ghost var before, n := symbols, i + 1;
      symbols := symbols[d.name := symbol.value];
      AddsOne(before, symbol.value, declarations, i);
    }
    PopulatedIsFresh(symbols, declarations, |declarations|, instructions);
    return Ok(symbols);
  }

  /** The symbol a declaration stands for, unless it is an error. */
  method Declare(d: Declaration, symbols: Symbols) returns (symbol: Option<Symbol>)
    requires d.DataDecl? ==> IsBaseSize(d.base)
    ensures symbol.Some? ==> IsDeclared(d, EnvironmentOf(symbols), symbol.value)
    ensures symbol.None? ==> Refused(d, symbols)
  {
    hide IsItem, EnvironmentOf;
    match d {
      case ConstDecl(_, isPublic, value) =>
        return Some(ConstantSymbol(isPublic, value));
      case DataDecl(_, isPublic, mutable, types, base, literal) =>
        var item := AddData(types, base, literal, EnvironmentOf(symbols));
        assert ItemOf(d, EnvironmentOf(symbols), item);
        if item.Err? || !item.value.complete || item.value.size >= WORD_LIMIT {
          return None;
        }
        return Some(DataSymbol(isPublic, mutable, item.value.size, item.value.initialiser, []));
      case LabelDecl(_, isPublic, instruction) =>
        return if instruction.Some? then Some(LabelSymbol(isPublic, Before(instruction.value), [])) else None;
    }
  }

  lemma NothingDeclared(declarations: seq<Declaration>)
    ensures Populated(map[], declarations, 0)
  {}

  lemma AddsOne(before: Symbols, symbol: Symbol, declarations: seq<Declaration>, i: nat)
    requires i < |declarations| && Populated(before, declarations, i) && declarations[i].name !in before
    requires IsDeclared(declarations[i], EnvironmentOf(before), symbol)
    ensures var n := i + 1; Populated(before[declarations[i].name := symbol], declarations, n)
  {
    hide IsDeclared, EnvironmentOf;
    var n := i + 1;
    assert Adds(before, symbol, before[declarations[i].name := symbol], declarations, n);
  }

  /** A declared symbol has no references yet, its size is its initialiser's length, and if it is a label it
      stands before an instruction. */
  lemma DeclaredIsFresh(d: Declaration, env: Environment, symbol: Symbol, instructions: nat)
    requires ValidDeclaration(d, instructions) && IsDeclared(d, env, symbol)
    ensures References(symbol) == [] && FreshSymbol(symbol, instructions)
  {
    hide TooSmall, TooBig, CheckedProduct, InitialBytes, ValuesOf, DimsOf;
  }

  /** A table filled from declarations is what code generation starts from. */
  lemma {:induction false} PopulatedIsFresh(symbols: Symbols, declarations: seq<Declaration>, n: nat, instructions: nat)
    requires n <= |declarations| && Populated(symbols, declarations, n) && ValidDeclarations(declarations, instructions)
    ensures Fresh(symbols, instructions)
  {
    hide IsDeclared, EnvironmentOf, FreshSymbol;
    if n > 0 {
      var before, symbol :| Adds(before, symbol, symbols, declarations, n);
      PopulatedIsFresh(before, declarations, n - 1, instructions);
      DeclaredIsFresh(declarations[n - 1], EnvironmentOf(before), symbol, instructions);
    }
  }
}
