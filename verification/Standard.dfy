/** The 32-bit instructions: decoding into fields and effect on the hart. */
module Standard {
  import opened Words
  import opened WordNumbers
  import opened Memory
  import opened CsrFile
  import opened HartState
  import opened Traps
  import opened CarryLess
  import opened BitManipulation
  import PT = PageTable
  import VA = VirtualAccess

  // ----- Fields -----

  function Opcode(i: bv32): bv7 { (i & 0x7F) as bv7 }

  function Rd(i: bv32): bv5 { ((i >> 7) & 0x1F) as bv5 }

  function Funct3(i: bv32): bv3 { ((i >> 12) & 0x7) as bv3 }

  function Rs1(i: bv32): bv5 { ((i >> 15) & 0x1F) as bv5 }

  function Rs2(i: bv32): bv5 { ((i >> 20) & 0x1F) as bv5 }

  function Funct7(i: bv32): bv7 { ((i >> 25) & 0x7F) as bv7 }

  function Imm12(i: bv32): bv12 { ((i >> 20) & 0xFFF) as bv12 }

  predicate Negative(i: bv32) { i & 0x8000_0000 != 0 }

  /** A value below its sign: the bits of `mask` are copies of the sign. */
  function Sext(negative: bool, mask: bv64, low: bv64): bv64 {
    (if negative then mask else 0) | low
  }

  // The bits of an immediate below its sign.

  function LowI(i: bv32): bv64 { ((i >> 20) & 0x7FF) as bv64 }

  function LowS(i: bv32): bv64 { (((i >> 20) & 0x7E0) | ((i >> 7) & 0x1F)) as bv64 }

  function LowB(i: bv32): bv64 { (((i & 0x80) << 4) | ((i >> 20) & 0x7E0) | ((i >> 7) & 0x1E)) as bv64 }

  function LowU(i: bv32): bv64 { (i & 0xFFFF_F000) as bv64 }

  function LowJ(i: bv32): bv64 { ((i & 0xF_F000) | ((i >> 9) & 0x800) | ((i >> 20) & 0x7FE)) as bv64 }

  function ImmI(i: bv32): bv64 { Sext(Negative(i), 0xFFFF_FFFF_FFFF_F800, LowI(i)) }

  function ImmS(i: bv32): bv64 { Sext(Negative(i), 0xFFFF_FFFF_FFFF_F800, LowS(i)) }

  function ImmB(i: bv32): bv64 { Sext(Negative(i), 0xFFFF_FFFF_FFFF_F000, LowB(i)) }

  function ImmU(i: bv32): bv64 { Sext(Negative(i), 0xFFFF_FFFF_0000_0000, LowU(i)) }

  function ImmJ(i: bv32): bv64 { Sext(Negative(i), 0xFFFF_FFFF_FFF0_0000, LowJ(i)) }

  /** What the execution of one instruction is given besides the hart: what the floating-point unit answers. */
  datatype Oracle = Oracle(floating: Floating)

  /** The register an instruction of the floating-point unit writes, and whether it marks the unit dirty. */
  datatype Floating = Unsupported | ToX(value: bv64, dirty: bool) | ToF(value: bv64, dirty: bool)

  function Illegal(h: Hart, i: bv32): Outcome {
    Raise(h, Exc(PT.IllegalInstruction), i as bv64)
  }

  /** Fall through with `v` in `rd`. */
  function Write1(h: Hart, rd: bv5, v: bv64, len: bv64): Outcome {
    Next(Goto(SetX(h, rd, v), Plus(h.pc, len)))
  }

  // ----- Arithmetic -----

  function Low32(x: bv64): bv32 { (x & 0xFFFF_FFFF) as bv32 }

  function Widen(x: bv32): bv64 { Signed32(x as bv64) }

  /** A jump target without its lowest bit. */
  function Even(x: bv64): bv64 { x & !1 }

  function Add32(x: bv32, y: bv32): bv32 { x + y }

  function Sub32(x: bv32, y: bv32): bv32 { x - y }

  function Minus(x: bv64, y: bv64): bv64 { x - y }

  function And(x: bv64, y: bv64): bv64 { x & y }

  function Or(x: bv64, y: bv64): bv64 { x | y }

  function Shamt(x: bv64): bv6 { (x & 0x3F) as bv6 }

  function Sra(x: bv64, n: bv6): bv64 {
    if WordNumbers.TopBit(x) then Complement(ShiftRight(Complement(x), n)) else ShiftRight(x, n)
  }

  function ShiftLeft32(x: bv32, n: bv5): bv32 { x << n }

  function ShiftRight32(x: bv32, n: bv5): bv32 { x >> n }

  function Complement32(x: bv32): bv32 { !x }

  /** The sign bit of a 32-bit word. */
  predicate Top32(x: bv32) { x & 0x8000_0000 != 0 }

  function Sra32(x: bv32, n: bv5): bv32 {
    if Top32(x) then Complement32(ShiftRight32(Complement32(x), n)) else ShiftRight32(x, n)
  }

  /** Signed comparison. */
  predicate Less(x: bv64, y: bv64) {
    Below(Flipped(x), Flipped(y))
  }

  function Flag(b: bool): bv64 { if b then 1 else 0 }

  /** OP-IMM with funct3 1: bit counts and sign extensions by their full code, single bits by funct7, and
      everything else a left shift. */
  function AluImmLeft(i: bv32, x: bv64, imm: bv64): bv64 {
    var imm12 := Imm12(i);
    var f7 := Funct7(i);
    if imm12 == 0x600 then Count(LeadingZeros(x, 64))
    else if imm12 == 0x601 then Count(TrailingZeros(x, 0, 64))
    else if imm12 == 0x602 then Count(Population(x, 64))
    else if imm12 == 0x604 then Signed8(x)
    else if imm12 == 0x605 then Signed16(x)
    else if f7 == 0x24 then ClearBit(x, Shamt(imm))
    else if f7 == 0x34 then InvertBit(x, Shamt(imm))
    else if f7 == 0x14 then SetBit(x, Shamt(imm))
    else ShiftLeft(x, Shamt(imm))
  }

  /** OP-IMM with funct3 5; everything not recognised is a right shift, arithmetic when bit 30 is set. */
  function AluImmRight(i: bv32, x: bv64, imm: bv64): bv64 {
    var imm12 := Imm12(i);
    var f7 := Funct7(i);
    if imm12 == 0x287 then OrBytes(x, 8)
    else if imm12 == 0x6B8 then SwapBytes(x)
    else if f7 == 0x24 then ExtractBit(x, Shamt(imm))
    else if f7 == 0x30 then RotateR(x, Shamt(imm))
    else if i & 0x4000_0000 == 0 then ShiftRight(x, Shamt(imm)) else Sra(x, Shamt(imm))
  }

  /** Register-immediate operations. */
  function AluImm(i: bv32, f3: bv3, x: bv64, imm: bv64): bv64 {
    if f3 == 0 then Plus(x, imm)
    else if f3 == 1 then AluImmLeft(i, x, imm)
    else if f3 == 2 then Flag(Less(x, imm))
    else if f3 == 3 then Flag(x < imm)
    else if f3 == 4 then if Imm12(i) == 0x287 then x & 0xFFFF else Xor(x, imm)
    else if f3 == 5 then AluImmRight(i, x, imm)
    else if f3 == 6 then Or(x, imm)
    else And(x, imm)
  }

  /** The M extension. */
  function AluM(f3: bv3, x: bv64, y: bv64): bv64 {
    if f3 == 0 then MulLow(x, y)
    else if f3 == 1 then MulHigh(Signed(x), Signed(y))
    else if f3 == 2 then MulHigh(Signed(x), Unsigned(y))
    else if f3 == 3 then MulHigh(Unsigned(x), Unsigned(y))
    else if f3 == 4 then Div(x, y)
    else if f3 == 5 then DivU(x, y)
    else if f3 == 6 then Rem(x, y)
    else RemU(x, y)
  }

  function Smaller(x: bv64, y: bv64): bv64 { if Less(x, y) then x else y }

  function Larger(x: bv64, y: bv64): bv64 { if Less(x, y) then y else x }

  /** Zba, Zbb, Zbc and Zbs on registers. */
  function AluB(f7: bv7, f3: bv3, x: bv64, y: bv64): Option<bv64> {
    if f7 == 0x20 && f3 == 4 then Some(XorNot(x, y))
    else if f7 == 0x20 && f3 == 6 then Some(OrNot(x, y))
    else if f7 == 0x20 && f3 == 7 then Some(AndNot(x, y))
    else if f7 == 0x05 && f3 == 1 then Some(Product(x, y).low)
    else if f7 == 0x05 && f3 == 2 then Some(Middle(Product(x, y)))
    else if f7 == 0x05 && f3 == 3 then Some(Product(x, y).high)
    else if f7 == 0x05 && f3 == 4 then Some(Smaller(x, y))
    else if f7 == 0x05 && f3 == 5 then Some(if x <= y then x else y)
    else if f7 == 0x05 && f3 == 6 then Some(Larger(x, y))
    else if f7 == 0x05 && f3 == 7 then Some(if x <= y then y else x)
    else if f7 == 0x30 && f3 == 1 then Some(RotateL(x, Shamt(y)))
    else if f7 == 0x30 && f3 == 5 then Some(RotateR(x, Shamt(y)))
    else if f7 == 0x10 && f3 == 2 then Some(ShiftAdd(x, 1, y))
    else if f7 == 0x10 && f3 == 4 then Some(ShiftAdd(x, 2, y))
    else if f7 == 0x10 && f3 == 6 then Some(ShiftAdd(x, 3, y))
    else if f7 == 0x24 && f3 == 1 then Some(ClearBit(x, Shamt(y)))
    else if f7 == 0x24 && f3 == 5 then Some(ExtractBit(x, Shamt(y)))
    else if f7 == 0x34 && f3 == 1 then Some(InvertBit(x, Shamt(y)))
    else if f7 == 0x14 && f3 == 1 then Some(SetBit(x, Shamt(y)))
    else None
  }

  /** Register-register operations. */
  function Alu(f7: bv7, f3: bv3, x: bv64, y: bv64): Option<bv64> {
    if f7 == 0 then
      Some(if f3 == 0 then Plus(x, y)
           else if f3 == 1 then ShiftLeft(x, Shamt(y))
           else if f3 == 2 then Flag(Less(x, y))
           else if f3 == 3 then Flag(x < y)
           else if f3 == 4 then Xor(x, y)
           else if f3 == 5 then ShiftRight(x, Shamt(y))
           else if f3 == 6 then Or(x, y)
           else And(x, y))
    else if f7 == 0x20 && f3 == 0 then Some(Minus(x, y))
    else if f7 == 0x20 && f3 == 5 then Some(Sra(x, Shamt(y)))
    else if f7 == 0x01 then Some(AluM(f3, x, y))
    else AluB(f7, f3, x, y)
  }

  /** The low word as an unsigned number. */
  function ZeroExtend(x: bv64): bv64 { x & 0xFFFF_FFFF }

  function Shamt32(x: bv64): bv5 { (x & 0x1F) as bv5 }

  /** OP-IMM-32. */
  function AluImmW(i: bv32, f3: bv3, x: bv64, imm: bv64): Option<bv64> {
    var imm12 := Imm12(i);
    var w := Low32(x);
    var n := Shamt32(imm);
    if f3 == 0 then Some(Widen(Add32(w, Low32(imm))))
    else if f3 == 1 then
      if imm12 == 0x600 then Some(Count(LeadingZeros(ZeroExtend(x), 32)))
      else if imm12 == 0x601 then Some(Count(TrailingZeros(ZeroExtend(x), 0, 32)))
      else if imm12 == 0x602 then Some(Count(Population(ZeroExtend(x), 32)))
      else if Funct7(i) == 0x04 then Some(ShiftLeft(ZeroExtend(x), Shamt(imm)))
      else Some(Widen(ShiftLeft32(w, n)))
    else if f3 == 5 then
      if imm12 == 0x604 || imm12 == 0x605 then None
      else if imm12 == 0x698 then Some(Widen(RotateR32(w, n)))
      else if i & 0x4000_0000 == 0 then Some(Widen(ShiftRight32(w, n))) else Some(Widen(Sra32(w, n)))
    else None
  }

  /** The word operations of the M extension: on sign- or zero-extended operands, their low word extended. */
  function AluMW(f3: bv3, x: bv64, y: bv64): Option<bv64> {
    var a, b := Widen(Low32(x)), Widen(Low32(y));
    var u, v := ZeroExtend(x), ZeroExtend(y);
    if f3 == 0 then Some(Widen(Low32(MulLow(a, b))))
    else if f3 == 4 then Some(Widen(Low32(Div(a, b))))
    else if f3 == 5 then Some(Widen(Low32(DivU(u, v))))
    else if f3 == 6 then Some(Widen(Low32(Rem(a, b))))
    else if f3 == 7 then Some(Widen(Low32(RemU(u, v))))
    else None
  }

  /** OP-32. */
  function AluW(f7: bv7, f3: bv3, x: bv64, y: bv64): Option<bv64> {
    var v := Low32(x);
    var w := Low32(y);
    var n := Shamt32(y);
    if f7 == 0 && f3 == 0 then Some(Widen(Add32(v, w)))
    else if f7 == 0x20 && f3 == 0 then Some(Widen(Sub32(v, w)))
    else if f7 == 0 && f3 == 1 then Some(Widen(ShiftLeft32(v, n)))
    else if f7 == 0 && f3 == 5 then Some(Widen(ShiftRight32(v, n)))
    else if f7 == 0x20 && f3 == 5 then Some(Widen(Sra32(v, n)))
    else if f7 == 0x01 then AluMW(f3, x, y)
    else if f7 == 0x30 && f3 == 1 then Some(Widen(RotateL32(v, n)))
    else if f7 == 0x30 && f3 == 5 then Some(Widen(RotateR32(v, n)))
    else if f7 == 0x04 && f3 == 0 then Some(Plus(ZeroExtend(x), y))
    else if f7 == 0x10 && f3 == 2 then Some(ShiftAdd(ZeroExtend(x), 1, y))
    else if f7 == 0x10 && f3 == 4 then Some(ShiftAdd(ZeroExtend(x), 2, y))
    else if f7 == 0x10 && f3 == 6 then Some(ShiftAdd(ZeroExtend(x), 3, y))
    else None
  }

  function Branches(f3: bv3, x: bv64, y: bv64): Option<bool> {
    if f3 == 0 then Some(x == y)
    else if f3 == 1 then Some(x != y)
    else if f3 == 4 then Some(Less(x, y))
    else if f3 == 5 then Some(!Less(x, y))
    else if f3 == 6 then Some(x < y)
    else if f3 == 7 then Some(x >= y)
    else None
  }

  // ----- Loads and stores -----

  /** The width of a load, and of a store for kinds 0 to 3. */
  function WidthOf(f3: bv3): nat {
    if f3 == 0 || f3 == 4 then 1
    else if f3 == 1 || f3 == 5 then 2
    else if f3 == 2 || f3 == 6 then 4
    else 8
  }

  /** A loaded value as the register receives it. */
  function Extend(f3: bv3, v: bv64): bv64 {
    if f3 == 0 then Signed8(v)
    else if f3 == 1 then Signed16(v)
    else if f3 == 2 then Signed32(v)
    else v
  }

  function LoadX(h: Hart, f3: bv3, rd: bv5, va: bv64, len: bv64): Outcome {
    var l := LoadFrom(h, va, WidthOf(f3));
    var k := h.(mem := l.mem);
    match l.result
    case Err(e) => Raise(k, Exc(e), va)
    case Ok(v) => Write1(k, rd, Extend(f3, Wide(v)), len)
  }

  /** A single-precision value boxed in a 64-bit register. */
  function Box(v: bv64): bv64 {
    0xFFFF_FFFF_0000_0000 | (v & 0xFFFF_FFFF)
  }

  function LoadF(h: Hart, f3: bv3, rd: bv5, va: bv64, len: bv64): Outcome {
    var l := LoadFrom(h, va, WidthOf(f3));
    var k := h.(mem := l.mem);
    match l.result
    case Err(e) => Raise(k, Exc(e), va)
    case Ok(v) => Next(Goto(MarkDirty(SetF(k, rd, if f3 == 2 then Box(Wide(v)) else Wide(v))), Plus(h.pc, len)))
  }

  function StoreV(h: Hart, va: bv64, v: bv64, n: nat, len: bv64): Outcome {
    var s := StoreTo(h, va, v, n);
    var k := h.(mem := s.mem);
    match s.result
    case Err(e) => Raise(k, Exc(e), va)
    case Ok(_) => Next(Goto(ClearReservation(k), Plus(h.pc, len)))
  }

  // ----- Cache-block zero -----

  /** `n` doublewords of zero from `pa` on; a refused write is dropped. */
  function ZeroWords(p: Phys, pa: int, n: nat): Phys {
    if n == 0 then p
    else
      var q := ZeroWords(p, pa, n - 1);
      var w := Write64At(q, pa + 8 * (n - 1), 0);
      if w.None? then q else w.value
  }

  /** The start of a 64-byte block. */
  function Block(va: bv64): bv64 { va & !0x3F }

  function CboZero(h: Hart, va: bv64, len: bv64): Outcome {
    var t := Locate(h, va, PT.Store);
    match t.result
    case Err(e) => Raise(h.(mem := t.mem), Exc(e), va)
    case Ok(pa) => Next(Goto(h.(mem := ZeroWords(t.mem, pa, 8)), Plus(h.pc, len)))
  }

  function MiscMem(h: Hart, i: bv32, len: bv64): Outcome {
    var f3 := Funct3(i);
    var op := Rs2(i);
    if f3 == 0 || f3 == 1 then Next(Goto(h, Plus(h.pc, len)))
    else if f3 == 2 && (op == 0 || op == 1 || op == 2) then Next(Goto(h, Plus(h.pc, len)))
    else if f3 == 2 && op == 4 then CboZero(h, Block(X(h, Rs1(i))), len)
    else Illegal(h, i)
  }

  // ----- Atomics -----

  const LR: bv5 := 0x02
  const SC: bv5 := 0x03

  function Funct5(i: bv32): bv5 { ((i >> 27) & 0x1F) as bv5 }

  /** The assigned codes of atomic memory operations. */
  predicate IsAmo(f5: bv5) {
    || f5 == 0x01 || f5 == 0x00 || f5 == 0x04 || f5 == 0x0C || f5 == 0x08
    || f5 == 0x10 || f5 == 0x14 || f5 == 0x18 || f5 == 0x1C
  }

  /** The value an atomic memory operation writes, from 64-bit operands. */
  function Combine(f5: bv5, was: bv64, y: bv64): bv64
    requires IsAmo(f5)
  {
    if f5 == 0x01 then y
    else if f5 == 0x00 then Plus(was, y)
    else if f5 == 0x04 then Xor(was, y)
    else if f5 == 0x0C then And(was, y)
    else if f5 == 0x08 then Or(was, y)
    else if f5 == 0x10 then if Less(was, y) then was else y
    else if f5 == 0x14 then if Less(was, y) then y else was
    else if f5 == 0x18 then if was < y then was else y
    else if was < y then y else was
  }

  /** An operand at the width of the operation: words compare signed unless the operation is unsigned. */
  function Operand(f5: bv5, word: bool, y: bv64): bv64 {
    if !word then y
    else if f5 == 0x18 || f5 == 0x1C then y & 0xFFFF_FFFF
    else Signed32(y)
  }

  function WidthAmo(word: bool): nat { if word then 4 else 8 }

  /** A loaded value as an atomic instruction returns it. */
  function Returned(word: bool, v: nat): bv64 {
    if word then Signed32(Wide(v)) else Wide(v)
  }

  function LoadReserved(h: Hart, word: bool, rd: bv5, va: bv64, pa: u64, len: bv64): Outcome {
    match ReadAt(h.mem, pa, WidthAmo(word))
    case None => Raise(h, Exc(PT.LoadAccessFault), va)
    case Some(v) => Next(Goto(Reserve(SetX(h, rd, Returned(word, v)), pa), Plus(h.pc, len)))
  }

  function StoreConditional(h: Hart, word: bool, rd: bv5, rs2: bv5, va: bv64, pa: u64, len: bv64): Outcome {
    if Reserved(h, pa) then
      match WriteAt(h.mem, pa, WidthAmo(word), Num(X(h, rs2)))
      case None => Raise(h, Exc(PT.StoreAMOAccessFault), va)
      case Some(m) => Next(Goto(ClearReservation(SetX(h.(mem := m), rd, 0)), Plus(h.pc, len)))
    else Next(Goto(ClearReservation(SetX(h, rd, 1)), Plus(h.pc, len)))
  }

  function AtomicUpdate(h: Hart, f5: bv5, word: bool, rd: bv5, rs2: bv5, va: bv64, pa: u64, len: bv64): Outcome
    requires IsAmo(f5)
  {
    match ReadAt(h.mem, pa, WidthAmo(word))
    case None => Raise(h, Exc(PT.LoadAccessFault), va)
    case Some(v) =>
      var was := Returned(word, v);
      var next := Combine(f5, Operand(f5, word, was), Operand(f5, word, X(h, rs2)));
      match WriteAt(h.mem, pa, WidthAmo(word), Num(next))
      case None => Raise(h, Exc(PT.StoreAMOAccessFault), va)
      case Some(m) => Next(Goto(ClearReservation(SetX(h.(mem := m), rd, was)), Plus(h.pc, len)))
  }

  /** The address is translated first, whatever the operation turns out to be. */
  function Atomic(h: Hart, i: bv32, len: bv64): Outcome {
    var f5 := Funct5(i);
    var f3 := Funct3(i);
    var va := X(h, Rs1(i));
    var t := Locate(h, va, if f5 == LR then PT.Load else PT.Store);
    var k := h.(mem := t.mem);
    match t.result
    case Err(e) => Raise(k, Exc(e), va)
    case Ok(pa) =>
      if f3 != 2 && f3 != 3 then Illegal(k, i)
      else if f5 == LR then LoadReserved(k, f3 == 2, Rd(i), va, pa, len)
      else if f5 == SC then StoreConditional(k, f3 == 2, Rd(i), Rs2(i), va, pa, len)
      else if IsAmo(f5) then AtomicUpdate(k, f5, f3 == 2, Rd(i), Rs2(i), va, pa, len)
      else Illegal(k, i)
  }

  // ----- System instructions -----

  const TIME: CsrAddr := 0xC01

  /** The registers that exist. */
  predicate ValidCsr(a: CsrAddr) {
    || (0x300 <= a <= 0x306) || a == 0x30A || a == 0x320
    || (0x340 <= a <= 0x344) || a == 0x34A || a == 0x34B
    || (0xF11 <= a <= 0xF14) || (0x323 <= a <= 0x332) || (0x3A0 <= a <= 0x3A3) || (0x3B0 <= a <= 0x3EF)
    || a == 0x100 || (0x102 <= a <= 0x106) || a == 0x10A
    || (0x140 <= a <= 0x144) || a == 0x14D || a == 0x180
    || a == 0x600 || a == 0x602 || a == 0x603 || a == 0x606 || a == 0x643 || a == 0x64A
    || a == 0x200 || a == 0x204 || a == 0x205 || (0x240 <= a <= 0x244) || a == 0x280
    || (0x7A0 <= a <= 0x7A4)
    || (0x001 <= a <= 0x003) || (0xC00 <= a <= 0xC02) || (0xB03 <= a <= 0xB12)
  }

  function LevelOf(m: PT.Mode): nat {
    match m case User => 0 case Supervisor => 1 case Hypervisor => 2 case Machine => 3
  }

  /** Address bits 9:8 give the lowest mode with access, bits 11:10 both set make a register read-only. */
  predicate Permitted(a: CsrAddr, m: PT.Mode, write: bool) {
    LevelOf(m) >= a / 0x100 % 4 && !(write && a / 0x400 == 3)
  }

  function CsrOf(i: bv32): (a: CsrAddr)
  {
    ((i >> 20) & 0xFFF) as bv12 as int
  }

  /** What a CSR instruction reads, and the register file and comparator it leaves. */
  datatype CsrResult = CsrResult(was: bv64, csr: Regs, stimecmp: bv64)

  /** CSRRW and CSRRWI. */
  function CsrSwap(h: Hart, a: CsrAddr, v: bv64, fromBus: bool): CsrResult {
    if a == STIMECMP then
      CsrResult(if fromBus then h.clint.stimecmp else Read(h.csr, a), Write(h.csr, a, v), v)
    else if a == TIME then CsrResult(h.clint.mtime, h.csr, h.clint.stimecmp)
    else CsrResult(Read(h.csr, a), Apply(h.csr, Swap(a, v)), h.clint.stimecmp)
  }

  /** CSRRS, CSRRC and their immediate forms. */
  function CsrMask(h: Hart, a: CsrAddr, op: Op, wanted: bool, writes: bool): CsrResult {
    var was := if !wanted then 0 else if a == TIME then h.clint.mtime else Read(h.csr, a);
    var r := if !wanted || a == TIME then h.csr else Apply(h.csr, op);
    CsrResult(was, r, if writes && a == STIMECMP then Read(r, STIMECMP) else h.clint.stimecmp)
  }

  function CsrAccess(h: Hart, f3: bv3, a: CsrAddr, rd: bv5, rs1: bv5): CsrResult {
    var v := if f3 < 4 then X(h, rs1) else rs1 as bv64;
    if f3 == 1 || f3 == 5 then CsrSwap(h, a, v, f3 == 1)
    else CsrMask(h, a, if f3 == 2 || f3 == 6 then SetBits(a, v) else ClearBits(a, v), rd != 0 || rs1 != 0, rs1 != 0)
  }

  function CsrInstruction(h: Hart, i: bv32, len: bv64): Outcome {
    var f3 := Funct3(i);
    var a := CsrOf(i);
    var writes := f3 == 1 || f3 == 5 || Rs1(i) != 0;
    if !ValidCsr(a) || !Permitted(a, h.mode, writes) then Illegal(h, i)
    else
      var c := CsrAccess(h, f3, a, Rd(i), Rs1(i));
      Write1(h.(csr := c.csr, clint := h.clint.(stimecmp := c.stimecmp)), Rd(i), c.was, len)
  }

  function EcallException(m: PT.Mode): PT.Exception {
    match m
    case User => PT.EnvironmentCallFromUMode
    case Supervisor => PT.EnvironmentCallFromSMode
    case _ => PT.EnvironmentCallFromMMode
  }

  function Privileged(h: Hart, i: bv32, len: bv64): Outcome {
    var f7 := Funct7(i);
    var imm := Imm12(i);
    if f7 == 0x09 || f7 == 0x31 || f7 == 0x11 then Next(Goto(h, Plus(h.pc, len)))
    else if imm == 0x000 then Raise(h, Exc(EcallException(h.mode)), 0)
    else if imm == 0x001 then Raise(h, Exc(PT.Breakpoint), h.pc)
    else if imm == 0x302 then Next(Mret(h))
    else if imm == 0x102 then Next(Sret(h))
    else if imm == 0x105 || imm == 0x00D || imm == 0x01D then Next(Goto(h, Plus(h.pc, len)))
    else Illegal(h, i)
  }

  function System(h: Hart, i: bv32, len: bv64): Outcome {
    var f3 := Funct3(i);
    if f3 == 0 then Privileged(h, i, len)
    else if f3 == 4 then Illegal(h, i)
    else CsrInstruction(h, i, len)
  }

  /** Floating-point computation: refused while the unit is off, otherwise as the oracle says. */
  function FloatingPoint(h: Hart, i: bv32, len: bv64, o: Oracle): Outcome {
    if Read(h.csr, MSTATUS) & 0x6000 == 0 then Illegal(h, i)
    else
      match o.floating
      case Unsupported => Illegal(h, i)
      case ToX(v, d) => Write1(if d then MarkDirty(h) else h, Rd(i), v, len)
      case ToF(v, d) => Next(Goto(SetF(if d then MarkDirty(h) else h, Rd(i), v), Plus(h.pc, len)))
  }

  // ----- One instruction -----

  function Jump(h: Hart, rd: bv5, target: bv64, len: bv64): Outcome {
    Next(Goto(SetX(h, rd, Plus(h.pc, len)), target))
  }

  function BranchIf(h: Hart, taken: bool, imm: bv64, len: bv64): Outcome {
    Next(Goto(h, if taken then Plus(h.pc, imm) else Plus(h.pc, len)))
  }

  function OrIllegal(h: Hart, i: bv32, rd: bv5, v: Option<bv64>, len: bv64): Outcome {
    if v.None? then Illegal(h, i) else Write1(h, rd, v.value, len)
  }

  function Load(h: Hart, i: bv32, len: bv64): Outcome {
    if Funct3(i) == 7 then Illegal(h, i) else LoadX(h, Funct3(i), Rd(i), Plus(X(h, Rs1(i)), ImmI(i)), len)
  }

  function FLoad(h: Hart, i: bv32, len: bv64): Outcome {
    if Funct3(i) != 2 && Funct3(i) != 3 then Illegal(h, i)
    else LoadF(h, Funct3(i), Rd(i), Plus(X(h, Rs1(i)), ImmI(i)), len)
  }

  function Store(h: Hart, i: bv32, len: bv64): Outcome {
    if Funct3(i) >= 4 then Illegal(h, i)
    else StoreV(h, Plus(X(h, Rs1(i)), ImmS(i)), X(h, Rs2(i)), WidthOf(Funct3(i)), len)
  }

  function FStore(h: Hart, i: bv32, len: bv64): Outcome {
    if Funct3(i) == 2 then StoreV(h, Plus(X(h, Rs1(i)), ImmS(i)), And(F(h, Rs2(i)), 0xFFFF_FFFF), 4, len)
    else if Funct3(i) == 3 then StoreV(h, Plus(X(h, Rs1(i)), ImmS(i)), F(h, Rs2(i)), 8, len)
    else Illegal(h, i)
  }

  function Branch(h: Hart, i: bv32, len: bv64): Outcome {
    var taken := Branches(Funct3(i), X(h, Rs1(i)), X(h, Rs2(i)));
    if taken.None? then Illegal(h, i) else BranchIf(h, taken.value, ImmB(i), len)
  }

  /** The instructions that only write a register or jump. */
  predicate Computes(i: bv32) {
    var op := Opcode(i);
    op == 0x37 || op == 0x17 || op == 0x6F || op == 0x67 || op == 0x13 || op == 0x33 || op == 0x1B || op == 0x3B
  }

  /** The effect of instruction word `i`, whose encoding occupies `len` bytes. */
  function Execute(h: Hart, i: bv32, len: bv64, o: Oracle): Outcome {
    var op := Opcode(i);
    if op == 0x37 then Write1(h, Rd(i), ImmU(i), len)
    else if op == 0x17 then Write1(h, Rd(i), Plus(h.pc, ImmU(i)), len)
    else if op == 0x6F then Jump(h, Rd(i), Plus(h.pc, ImmJ(i)), len)
    else if op == 0x67 then Jump(h, Rd(i), Even(Plus(X(h, Rs1(i)), ImmI(i))), len)
    else if op == 0x63 then Branch(h, i, len)
    else if op == 0x03 then Load(h, i, len)
    else if op == 0x07 then FLoad(h, i, len)
    else if op == 0x23 then Store(h, i, len)
    else if op == 0x27 then FStore(h, i, len)
    else if op == 0x13 then Write1(h, Rd(i), AluImm(i, Funct3(i), X(h, Rs1(i)), ImmI(i)), len)
    else if op == 0x33 then OrIllegal(h, i, Rd(i), Alu(Funct7(i), Funct3(i), X(h, Rs1(i)), X(h, Rs2(i))), len)
    else if op == 0x1B then OrIllegal(h, i, Rd(i), AluImmW(i, Funct3(i), X(h, Rs1(i)), ImmI(i)), len)
    else if op == 0x3B then OrIllegal(h, i, Rd(i), AluW(Funct7(i), Funct3(i), X(h, Rs1(i)), X(h, Rs2(i))), len)
    else if op == 0x0F then MiscMem(h, i, len)
    else if op == 0x2F then Atomic(h, i, len)
    else if op == 0x73 then System(h, i, len)
    else if op == 0x53 || op == 0x43 || op == 0x47 || op == 0x4B || op == 0x4F then FloatingPoint(h, i, len, o)
    else Illegal(h, i)
  }
}
