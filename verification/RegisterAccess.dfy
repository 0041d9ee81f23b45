/** The registers a program can name, and how the CPU reads and writes them (simulatron-vm, cpu.rs). */
module RegisterAccess {
  import opened Bytes
  import opened Wrappers
  import opened Arithmetic
  import opened InstructionSet
  import opened SaltEncoding
  import RegisterFile

  /** A value with its type; floats are bit patterns. */
  datatype TypedValue = ByteValue(b: Byte) | HalfValue(h: Half) | WordValue(w: Word) | FloatValue(bits: Word)

  /** General registers have 32 bits, of which a reference may mean the low 16 or 8. */
  datatype Place =
    | General(index: nat, width: nat)
    | Float(index: nat)
    | Flags | UserStack | KernelStack | PageDirectory | InterruptMask | PageFaultStatus

  /** What the registers hold. */
  datatype Contents = Contents(
    r: seq<Word>, f: seq<Word>, flags: Half, uspr: Word, kspr: Word, pdpr: Word, imr: Half, pfsr: Word)

  ghost predicate ValidContents(c: Contents) {
    |c.r| == 8 && |c.f| == 8
  }

  ghost predicate ValidPlace(p: Place) {
    match p
    case General(index, width) => index < 8 && (width == 32 || width == 16 || width == 8)
    case Float(index) => index < 8
    case _ => true
  }

  function TypeOfPlace(p: Place): RegisterType {
    match p
    case General(_, width) => if width == 32 then WordReg else if width == 16 then HalfReg else ByteReg
    case Float(_) => FloatReg
    case Flags => HalfReg
    case InterruptMask => HalfReg
    case _ => WordReg
  }

  function TypeOfValue(v: TypedValue): RegisterType {
    match v
    case ByteValue(_) => ByteReg
    case HalfValue(_) => HalfReg
    case WordValue(_) => WordReg
    case FloatValue(_) => FloatReg
  }

  /** Reading these takes kernel mode. */
  predicate Privileged(p: Place) {
    p == KernelStack || p == PageDirectory || p == InterruptMask || p == PageFaultStatus
  }

  ghost function Get(c: Contents, p: Place): TypedValue
    requires ValidContents(c) && ValidPlace(p)
  {
    match p
    case General(index, width) =>
      if width == 32 then WordValue(c.r[index])
      else if width == 16 then HalfValue(c.r[index] % 0x1_0000)
      else ByteValue(c.r[index] % 0x100)
    case Float(index) => FloatValue(c.f[index])
    case Flags => HalfValue(c.flags)
    case UserStack => WordValue(c.uspr)
    case KernelStack => WordValue(c.kspr)
    case PageDirectory => WordValue(c.pdpr)
    case InterruptMask => HalfValue(c.imr)
    case PageFaultStatus => WordValue(c.pfsr)
  }

  /** The general register with its low bits replaced and the bits above as they were. */
  function LowReplaced(word: Word, v: TypedValue): (w: Word)
    requires !v.FloatValue?
    ensures v.HalfValue? ==> w % 0x1_0000 == v.h && w / 0x1_0000 == word / 0x1_0000
    ensures v.ByteValue? ==> w % 0x100 == v.b && w / 0x100 == word / 0x100
  {
    match v
    case WordValue(w) => w
    case HalfValue(h) => word - word % 0x1_0000 + h
    case ByteValue(b) => word - word % 0x100 + b
  }

  /** Bit 15 of the flags is not written. */
  ghost function Set(c: Contents, p: Place, v: TypedValue): Contents
    requires ValidContents(c) && ValidPlace(p) && TypeOfValue(v) == TypeOfPlace(p)
  {
    match p
    case General(index, _) => c.(r := c.r[index := LowReplaced(c.r[index], v)])
    case Float(index) => c.(f := c.f[index := v.bits])
    case Flags => c.(flags := v.h % 0x8000)
    case UserStack => c.(uspr := v.w)
    case KernelStack => c.(kspr := v.w)
    case PageDirectory => c.(pdpr := v.w)
    case InterruptMask => c.(imr := v.h)
    case PageFaultStatus => c
  }

  /** Two places have no bits in common. */
  predicate Separate(p: Place, q: Place) {
    if p.General? && q.General? then p.index != q.index else p != q
  }

  /** Writing a register is reading it back, except for bit 15 of the flags, and leaves all others alone. */
  lemma SetThenGet(c: Contents, p: Place, v: TypedValue, q: Place)
    requires ValidContents(c) && ValidPlace(p) && ValidPlace(q) && TypeOfValue(v) == TypeOfPlace(p) && p != PageFaultStatus
    ensures ValidContents(Set(c, p, v))
    ensures Get(Set(c, p, v), p) == if p == Flags then HalfValue(v.h % 0x8000) else v
    ensures Separate(p, q) ==> Get(Set(c, p, v), q) == Get(c, q)
  {}

  // ----- References -----

  /** The register a reference means. */
  function PlaceOf(reference: Byte): (p: Option<Place>)
    ensures p.Some? ==> ValidPlace(p.value)
    ensures p.Some? <==> RegRefType(reference).Some?
    ensures p.Some? ==> RegRefType(reference) == Some(TypeOfPlace(p.value))
    ensures RegisterFile.IsGeneral(reference) ==>
      p == Some(General(RegisterFile.IndexOf(reference), RegisterFile.WidthOf(reference)))
  {
    if reference < 0x08 then Some(General(reference, 32))
    else if reference < 0x10 then Some(General(reference - 0x08, 16))
    else if reference < 0x18 then Some(General(reference - 0x10, 8))
    else if reference < 0x20 then Some(Float(reference - 0x18))
    else if reference == 0x20 then Some(Flags)
    else if reference == 0x21 then Some(UserStack)
    else if reference == 0x22 then Some(KernelStack)
    else if reference == 0x23 then Some(PageDirectory)
    else if reference == 0x24 then Some(InterruptMask)
    else if reference == 0x25 then Some(PageFaultStatus)
    else None
  }

  class Cpu {
    const r: array<Word>
    const f: array<Word>
    var flags: Half
    var uspr: Word
    var kspr: Word
    var pdpr: Word
    var imr: Half
    var pfsr: Word
    var kernelMode: bool
    var illegalOperations: nat  // interrupts sent

    constructor ()
      ensures fresh(r) && fresh(f) && Valid() && kernelMode && illegalOperations == 0
    {
      r, f := new Word[8](_ => 0), new Word[8](_ => 0);
      flags, uspr, kspr, pdpr, imr, pfsr := 0, 0, 0, 0, 0, 0;
      kernelMode, illegalOperations := true, 0;
    }

    ghost predicate Valid() { r.Length == 8 && f.Length == 8 && r != f }

    ghost function Now(): Contents
      reads this, r, f
    {
      Contents(r[..], f[..], flags, uspr, kspr, pdpr, imr, pfsr)
    }

    method Illegal() returns (r: Result<TypedValue, ()>)
      modifies this`illegalOperations
      ensures r == Err(()) && illegalOperations == old(illegalOperations) + 1
    {
      illegalOperations := illegalOperations + 1;
      return Err(());
    }

    /** The value of the register the reference means, unless there is none or it takes kernel mode. */
    method ReadFromRegister(reference: Byte) returns (v: Result<TypedValue, ()>)
      requires Valid()
      modifies this`illegalOperations
      ensures v.Ok? <==> PlaceOf(reference).Some? && (kernelMode || !Privileged(PlaceOf(reference).value))
      ensures v.Ok? ==> v.value == Get(Now(), PlaceOf(reference).value)
      ensures illegalOperations == old(illegalOperations) + if v.Ok? then 0 else 1
    {
      if reference < 0x08 {
        return Ok(WordValue(r[reference]));
      } else if reference < 0x10 {
        return Ok(HalfValue(r[reference - 0x08] % 0x1_0000));
      } else if reference < 0x18 {
        return Ok(ByteValue(r[reference - 0x10] % 0x100));
      } else if reference < 0x20 {
        return Ok(FloatValue(f[reference - 0x18]));
      } else if reference == 0x20 {
        return Ok(HalfValue(flags));
      } else if reference == 0x21 {
        return Ok(WordValue(uspr));
      } else if reference > 0x25 || !kernelMode {
        v := Illegal();
      } else if reference == 0x22 {
        return Ok(WordValue(kspr));
      } else if reference == 0x23 {
        return Ok(WordValue(pdpr));
      } else if reference == 0x24 {
        return Ok(HalfValue(imr));
      } else {
        return Ok(WordValue(pfsr));
      }
    }

    /** A value of the right type is written to the register the reference means, unless there is none, it
        takes kernel mode, or it is the page fault status, which cannot be written. */
    method WriteToRegister(reference: Byte, value: TypedValue) returns (done: Result<(), ()>)
      requires Valid()
      modifies this, r, f
      ensures Valid() && kernelMode == old(kernelMode)
      ensures done.Ok? <==>
        && PlaceOf(reference).Some? && PlaceOf(reference) != Some(PageFaultStatus)
        && TypeOfValue(value) == TypeOfPlace(PlaceOf(reference).value)
        && (kernelMode || !Privileged(PlaceOf(reference).value))
      ensures Now() == if done.Ok? then Set(old(Now()), PlaceOf(reference).value, value) else old(Now())
      ensures illegalOperations == old(illegalOperations) + if done.Ok? then 0 else 1
    {
      if reference < 0x08 && value.WordValue? {
        r[reference] := value.w;
        return Ok(());
      } else if 0x08 <= reference < 0x10 && value.HalfValue? {
        r[reference - 0x08] := LowReplaced(r[reference - 0x08], value);
        return Ok(());
      } else if 0x10 <= reference < 0x18 && value.ByteValue? {
        r[reference - 0x10] := LowReplaced(r[reference - 0x10], value);
        return Ok(());
      } else if 0x18 <= reference < 0x20 && value.FloatValue? {
        f[reference - 0x18] := value.bits;
        return Ok(());
      } else if reference == 0x20 && value.HalfValue? {
        flags := value.h % 0x8000;
        return Ok(());
      } else if reference == 0x21 && value.WordValue? {
        uspr := value.w;
        return Ok(());
      } else if reference == 0x22 && value.WordValue? && kernelMode {
        kspr := value.w;
        return Ok(());
      } else if reference == 0x23 && value.WordValue? && kernelMode {
        pdpr := value.w;
        return Ok(());
      } else if reference == 0x24 && value.HalfValue? && kernelMode {
        imr := value.h;
        return Ok(());
      }
      illegalOperations := illegalOperations + 1;
      return Err(());
    }
  }

  // ----- Names -----

  predicate IsDigit(c: char) { '0' <= c <= '7' }

  /** The register a name stands for in the language: `r` and `f` with a number, a general register's half
      or byte, or a special register. */
  function Named(name: string): (p: Option<Place>)
    ensures p.Some? ==> ValidPlace(p.value)
  {
    if |name| == 2 && name[0] == 'r' && IsDigit(name[1]) then Some(General(name[1] as int - '0' as int, 32))
    else if |name| == 3 && name[0] == 'r' && IsDigit(name[1]) && name[2] == 'h' then Some(General(name[1] as int - '0' as int, 16))
    else if |name| == 3 && name[0] == 'r' && IsDigit(name[1]) && name[2] == 'b' then Some(General(name[1] as int - '0' as int, 8))
    else if |name| == 2 && name[0] == 'f' && IsDigit(name[1]) then Some(Float(name[1] as int - '0' as int))
    else if name == "flags" then Some(Flags)
    else if name == "uspr" then Some(UserStack)
    else if name == "kspr" then Some(KernelStack)
    else if name == "pdpr" then Some(PageDirectory)
    else if name == "imr" then Some(InterruptMask)
    else if name == "pfsr" then Some(PageFaultStatus)
    else None
  }

  ghost predicate Reaches(name: string) {
    && (GetRegRef(name).Some? <==> Named(name).Some?)
    && (GetRegRef(name).Some? ==> PlaceOf(GetRegRef(name).value.0) == Named(name))
  }

  /** The names by their first letter and length. */
  lemma ReferencesReach(name: string)
    requires GetRegRef(name).Some?
    ensures PlaceOf(GetRegRef(name).value.0) == Named(name)
  {
    hide GetRegRef, PlaceOf, Named;
    if |name| == 2 {
      ShortReach(name);
    } else {
      LongReach(name);
    }
  }

  lemma ShortReach(name: string)
    requires GetRegRef(name).Some? && |name| == 2
    ensures PlaceOf(GetRegRef(name).value.0) == Named(name)
  {}

  lemma LongReach(name: string)
    requires GetRegRef(name).Some? && |name| != 2
    ensures PlaceOf(GetRegRef(name).value.0) == Named(name)
  {}

  lemma NamedHaveReferences(name: string)
    requires Named(name).Some?
    ensures GetRegRef(name).Some?
  {
    if |name| == 2 {
      assert name == [name[0], name[1]];
    } else if |name| == 3 {
      assert name == [name[0], name[1], name[2]];
    }
  }

  /** Every name reaches the register it stands for, and no other name is a register. */
  lemma NamesReachRegisters(name: string)
    ensures Reaches(name)
  {
    hide GetRegRef, Named, PlaceOf;
    if GetRegRef(name).Some? {
      ReferencesReach(name);
      assert PlaceOf(GetRegRef(name).value.0).Some?;
    }
    if Named(name).Some? {
      NamedHaveReferences(name);
    }
  }

  /** The operand is the register that the source names, if it names one, and otherwise no register. */
  ghost predicate NamesRegister(source: OperandValue, decoded: Operand) {
    if source.Ident? && Named(source.name).Some? then decoded.Register? && PlaceOf(decoded.r) == Named(source.name)
    else !decoded.Register?
  }

  lemma EncodedNamesRegister(source: OperandValue, env: Environment, encoded: Operand)
    requires Resolve(source, env).Ok? && StandsFor(encoded, Resolve(source, env).value, env)
    ensures NamesRegister(source, encoded)
  {
    hide GetRegRef, Named, PlaceOf;
    if source.Ident? {
      NamesReachRegisters(source.name);
    }
  }
}
