/** The assembler's symbol table (simulatron-salt, codegen.rs) and the slots its references name. */
module SaltSymbols {
  import opened Bytes
  import opened Wrappers
  import opened InstructionSet
  import opened SaltEncoding
  import SymbolTables

  /** The instruction a label stands before, or where that instruction's code begins. */
  datatype LabelLocation = Before(instruction: nat) | AtOffset(offset: nat)

  datatype Symbol =
    | ConstantSymbol(isPublic: bool, literal: Literal)
    | DataSymbol(isPublic: bool, mutable: bool, size: Word, initialiser: seq<Byte>, references: seq<nat>)
    | LabelSymbol(isPublic: bool, location: LabelLocation, references: seq<nat>)
    | ExternalSymbol(references: seq<nat>)

  type Symbols = map<string, Symbol>

  function References(symbol: Symbol): seq<nat> {
    match symbol
    case ConstantSymbol(_, _) => []
    case DataSymbol(_, _, _, _, references) => references
    case LabelSymbol(_, _, references) => references
    case ExternalSymbol(references) => references
  }

  function WithReference(symbol: Symbol, position: nat): (s: Symbol)
    ensures References(s) == References(symbol) + if symbol.ConstantSymbol? then [] else [position]
  {
    match symbol
    case ConstantSymbol(_, _) => symbol
    case DataSymbol(isPublic, mutable, size, initialiser, references) =>
      DataSymbol(isPublic, mutable, size, initialiser, references + [position])
    case LabelSymbol(isPublic, location, references) => LabelSymbol(isPublic, location, references + [position])
    case ExternalSymbol(references) => ExternalSymbol(references + [position])
  }

  /** One more reference to `name`; an unknown name becomes an external symbol. */
  function AddReference(symbols: Symbols, name: string, position: nat): Symbols {
    symbols[name := if name in symbols then WithReference(symbols[name], position) else ExternalSymbol([position])]
  }

  /** What names stand for when instructions are encoded. */
  function EnvironmentOf(symbols: Symbols): Environment {
    Environment(map name | name in symbols && symbols[name].ConstantSymbol? :: symbols[name].literal,
                map name | name in symbols && symbols[name].DataSymbol? :: symbols[name].size)
  }

  ghost predicate Unreferenced(symbols: Symbols) {
    forall name :: name in symbols ==> References(symbols[name]) == []
  }

  /** The two symbols differ at most in their references. */
  ghost predicate SameDefinition(a: Symbol, b: Symbol) {
    match a
    case ConstantSymbol(_, _) => a == b
    case DataSymbol(isPublic, mutable, size, initialiser, _) =>
      b.DataSymbol? && b == DataSymbol(isPublic, mutable, size, initialiser, b.references)
    case LabelSymbol(isPublic, location, _) => b.LabelSymbol? && b == LabelSymbol(isPublic, location, b.references)
    case ExternalSymbol(_) => b.ExternalSymbol?
  }

  /** `after` has the same definitions, and possibly more references and external symbols. */
  ghost predicate SameDefinitions(before: Symbols, after: Symbols) {
    && (forall name :: name in before ==> name in after && SameDefinition(before[name], after[name]))
    && (forall name :: name in after && name !in before ==> after[name].ExternalSymbol?)
  }

  lemma SameEnvironment(before: Symbols, after: Symbols)
    requires SameDefinitions(before, after)
    ensures EnvironmentOf(after) == EnvironmentOf(before)
  {
    assert EnvironmentOf(after).constants == EnvironmentOf(before).constants;
    assert EnvironmentOf(after).sizes == EnvironmentOf(before).sizes;
  }

  lemma AddReferenceKeepsDefinitions(before: Symbols, after: Symbols, name: string, position: nat)
    requires SameDefinitions(before, after)
    ensures SameDefinitions(before, AddReference(after, name, position))
  {}

  // ----- Slots -----

  ghost predicate HasSlot(symbols: Symbols, name: string, k: int) {
    name in symbols && 0 <= k < |References(symbols[name])|
  }

  ghost function SlotAt(symbols: Symbols, name: string, k: int): nat
    requires HasSlot(symbols, name, k)
  {
    References(symbols[name])[k]
  }

  ghost predicate ZeroAt(code: seq<Byte>, r: nat) {
    r + 4 <= |code| && code[r..r + 4] == PLACEHOLDER
  }

  ghost predicate SlotsApart(symbols: Symbols, m: string, j: int, n: string, k: int)
    requires HasSlot(symbols, m, j) && HasSlot(symbols, n, k)
  {
    (m == n && j == k) || SymbolTables.Apart(SlotAt(symbols, m, j), SlotAt(symbols, n, k))
  }

  /** Every reference names four zero bytes of the code, and no two of them overlap. */
  ghost predicate SlotsValid(symbols: Symbols, code: seq<Byte>) {
    && (forall name, k :: HasSlot(symbols, name, k) ==> ZeroAt(code, SlotAt(symbols, name, k)))
    && (forall m, j, n, k :: HasSlot(symbols, m, j) && HasSlot(symbols, n, k) ==> SlotsApart(symbols, m, j, n, k))
  }

  /** No slot covers the byte at `p`. */
  ghost predicate Uncovered(symbols: Symbols, p: int) {
    forall name, k :: HasSlot(symbols, name, k) ==> SlotAt(symbols, name, k) + 4 <= p || p < SlotAt(symbols, name, k)
  }

  lemma NoSlots(symbols: Symbols, code: seq<Byte>)
    requires Unreferenced(symbols)
    ensures SlotsValid(symbols, code)
  {}

  /** The slots of a table with one more reference. */
  lemma SlotsAfter(symbols: Symbols, name: string, position: nat, n: string, k: int)
    requires name in symbols ==> !symbols[name].ConstantSymbol?
    requires HasSlot(AddReference(symbols, name, position), n, k)
    ensures HasSlot(symbols, n, k) || n == name
    ensures SlotAt(AddReference(symbols, name, position), n, k)
         == if HasSlot(symbols, n, k) then SlotAt(symbols, n, k) else position
    ensures !HasSlot(symbols, n, k) ==> n == name && k == if name in symbols then |References(symbols[name])| else 0
  {}

  lemma ZeroStays(code: seq<Byte>, more: seq<Byte>, r: nat)
    requires ZeroAt(code, r)
    ensures ZeroAt(code + more, r)
  {
    assert (code + more)[r..r + 4] == code[r..r + 4];
  }

  lemma AddReferenceKeepsSlots(symbols: Symbols, code: seq<Byte>, name: string)
    requires SlotsValid(symbols, code) && (name in symbols ==> !symbols[name].ConstantSymbol?)
    ensures SlotsValid(AddReference(symbols, name, |code|), code + PLACEHOLDER)
  {
    var after := AddReference(symbols, name, |code|);
    assert (code + PLACEHOLDER)[|code|..|code| + 4] == PLACEHOLDER;
    forall n, k | HasSlot(after, n, k) ensures ZeroAt(code + PLACEHOLDER, SlotAt(after, n, k)) {
      SlotsAfter(symbols, name, |code|, n, k);
      if HasSlot(symbols, n, k) {
        ZeroStays(code, PLACEHOLDER, SlotAt(symbols, n, k));
      }
    }
    forall m, j, n, k | HasSlot(after, m, j) && HasSlot(after, n, k) ensures SlotsApart(after, m, j, n, k) {
      SlotsAfter(symbols, name, |code|, m, j);
      SlotsAfter(symbols, name, |code|, n, k);
      if HasSlot(symbols, m, j) && HasSlot(symbols, n, k) {
        assert SlotsApart(symbols, m, j, n, k);
      }
    }
  }

  lemma AddReferenceKeepsUncovered(symbols: Symbols, name: string, position: nat, p: int)
    requires Uncovered(symbols, p) && p < position && (name in symbols ==> !symbols[name].ConstantSymbol?)
    ensures Uncovered(AddReference(symbols, name, position), p)
  {
    var after := AddReference(symbols, name, position);
    forall n, k | HasSlot(after, n, k) ensures SlotAt(after, n, k) + 4 <= p || p < SlotAt(after, n, k) {
      SlotsAfter(symbols, name, position, n, k);
    }
  }

  lemma PushKeepsSlots(symbols: Symbols, code: seq<Byte>, more: seq<Byte>)
    requires SlotsValid(symbols, code)
    ensures SlotsValid(symbols, code + more)
    ensures forall p :: p >= |code| ==> Uncovered(symbols, p)
  {
    forall name, k | HasSlot(symbols, name, k) ensures ZeroAt(code + more, SlotAt(symbols, name, k)) {
      ZeroStays(code, more, SlotAt(symbols, name, k));
    }
  }

  /** Writing a byte that no slot covers. */
  lemma PatchKeepsSlots(symbols: Symbols, code: seq<Byte>, p: nat, b: Byte)
    requires SlotsValid(symbols, code) && Uncovered(symbols, p) && p < |code|
    ensures SlotsValid(symbols, code[p := b])
  {
    forall name, k | HasSlot(symbols, name, k) ensures ZeroAt(code[p := b], SlotAt(symbols, name, k)) {
      var r := SlotAt(symbols, name, k);
      assert ZeroAt(code, r);
      assert code[p := b][r..r + 4] == code[r..r + 4];
    }
  }

  // ----- References an instruction adds -----

  /** The bytes of the first `n` operands. */
  function FirstBytes(operands: seq<Operand>, n: nat): seq<Byte>
    requires n <= |operands|
  {
    if n == 0 then [] else FirstBytes(operands, n - 1) + OperandBytes(operands[n - 1])
  }

  /** The symbol an operand names, if it names one. */
  function SymbolNamed(operand: OperandValue, env: Environment): Option<string> {
    match Resolve(operand, env)
    case Ok(SymbolReference(name)) => Some(name)
    case _ => None
  }

  /** The table after the first `n` operands, the first of them at `start`. */
  function Referenced(
    symbols: Symbols, operands: seq<OperandValue>, encoded: seq<Operand>, env: Environment, start: nat, n: nat): Symbols
    requires n <= |operands| && n <= |encoded|
  {
    if n == 0 then symbols
    else
      var before := Referenced(symbols, operands, encoded, env, start, n - 1);
      var name := SymbolNamed(operands[n - 1], env);
      if name.Some? then AddReference(before, name.value, start + |FirstBytes(encoded, n - 1)|) else before
  }

  // ----- Labels -----

  function Located(symbol: Symbol, instruction: nat, offset: nat): Symbol {
    if symbol.LabelSymbol? && symbol.location == Before(instruction) then symbol.(location := AtOffset(offset)) else symbol
  }

  /** All labels before `instruction` now stand for `offset`. */
  function LabelsResolved(symbols: Symbols, instruction: nat, offset: nat): Symbols {
    map name | name in symbols :: Located(symbols[name], instruction, offset)
  }

  lemma LabelsResolvedKeeps(symbols: Symbols, instruction: nat, offset: nat, code: seq<Byte>)
    ensures EnvironmentOf(LabelsResolved(symbols, instruction, offset)) == EnvironmentOf(symbols)
    ensures SlotsValid(symbols, code) ==> SlotsValid(LabelsResolved(symbols, instruction, offset), code)
  {
    var after := LabelsResolved(symbols, instruction, offset);
    assert EnvironmentOf(after).constants == EnvironmentOf(symbols).constants;
    assert EnvironmentOf(after).sizes == EnvironmentOf(symbols).sizes;
    if SlotsValid(symbols, code) {
      forall name, k | HasSlot(after, name, k) ensures ZeroAt(code, SlotAt(after, name, k)) {
        assert HasSlot(symbols, name, k);
      }
      forall m, j, n, k | HasSlot(after, m, j) && HasSlot(after, n, k) ensures SlotsApart(after, m, j, n, k) {
        assert HasSlot(symbols, m, j) && HasSlot(symbols, n, k) && SlotsApart(symbols, m, j, n, k);
      }
    }
  }

  lemma {:induction false} ReferencedKeepsDefinitions(
    symbols: Symbols, operands: seq<OperandValue>, encoded: seq<Operand>, env: Environment, start: nat, n: nat)
    requires n <= |operands| && n <= |encoded|
    ensures SameDefinitions(symbols, Referenced(symbols, operands, encoded, env, start, n))
  {
    if n > 0 {
      var before := Referenced(symbols, operands, encoded, env, start, n - 1);
      ReferencedKeepsDefinitions(symbols, operands, encoded, env, start, n - 1);
      if SymbolNamed(operands[n - 1], env).Some? {
        AddReferenceKeepsDefinitions(
          symbols, before, SymbolNamed(operands[n - 1], env).value, start + |FirstBytes(encoded, n - 1)|);
      }
    }
  }
}
