/** The system instructions by the bits of their word: which registers may be reached, what is read and written, and
    which words trap. */
module SystemMeaning {
  import opened Words
  import opened WordNumbers
  import opened WordBits
  import opened HartState
  import opened Standard
  import opened InstructionMeaning
  import CF = CsrFile
  import T = Traps
  import TM = TrapMeaning
  import PT = PageTable

  // ----- Access to the control and status registers -----

  /** Bits 31 to 20. */
  function CsrNumber(i: bv32): (a: CF.CsrAddr) { ((i >> 20) & 0xFFF) as bv12 as int }

  /** The registers of the machine, by the mode that owns them. */
  predicate Exists(a: CF.CsrAddr) {
    || a in {0x001, 0x002, 0x003, 0xC00, 0xC01, 0xC02}
    || a in {0x100, 0x102, 0x103, 0x104, 0x105, 0x106, 0x10A, 0x140, 0x141, 0x142, 0x143, 0x144, 0x14D, 0x180}
    || a in {0x600, 0x602, 0x603, 0x606, 0x643, 0x64A}
    || a in {0x200, 0x204, 0x205, 0x240, 0x241, 0x242, 0x243, 0x244, 0x280}
    || a in {0x300, 0x301, 0x302, 0x303, 0x304, 0x305, 0x306, 0x30A, 0x320}
    || a in {0x340, 0x341, 0x342, 0x343, 0x344, 0x34A, 0x34B, 0xF11, 0xF12, 0xF13, 0xF14}
    || a in {0x7A0, 0x7A1, 0x7A2, 0x7A3, 0x7A4}
    || 0x323 <= a <= 0x332 || 0xB03 <= a <= 0xB12 || 0x3A0 <= a <= 0x3A3 || 0x3B0 <= a <= 0x3EF
  }

  /** Bits 29 and 28 of the word name the lowest mode that reaches the register. */
  predicate Reaches(m: PT.Mode, i: bv32) {
    match m
    case User => i & 0x3000_0000 == 0
    case Supervisor => i & 0x2000_0000 == 0
    case Hypervisor => i & 0x3000_0000 != 0x3000_0000
    case Machine => true
  }

  /** Bits 31 and 30 of the word are both set. */
  predicate ReadOnly(i: bv32) { i & 0xC000_0000 == 0xC000_0000 }

  /** The instruction may write: always for a swap, otherwise unless its source field is 0. */
  predicate Writes(i: bv32) { i & 0x3000 == 0x1000 || i & 0xF_8000 != 0 }

  predicate IsCsr(i: bv32) { i & 0x7F == 0x73 && i & 0x3000 != 0 }

  /** The operand: the register, or the number of the field when bit 14 is set. */
  function Given(h: Hart, i: bv32): bv64 {
    if i & 0x4000 == 0 then Operand1(h, i) else ((i >> 15) & 0x1F) as bv64
  }

  lemma KindOf(i: bv32)
    requires IsCsr(i)
    ensures Opcode(i) == 0x73 && Funct3(i) != 0 && Funct3(i) != 4
    ensures Funct3(i) == 1 || Funct3(i) == 5 <==> i & 0x3000 == 0x1000
    ensures Funct3(i) == 2 || Funct3(i) == 6 <==> i & 0x3000 == 0x2000
    ensures Funct3(i) == 3 || Funct3(i) == 7 <==> i & 0x3000 == 0x3000
    ensures Funct3(i) < 4 <==> i & 0x4000 == 0
    ensures Rs1(i) != 0 <==> i & 0xF_8000 != 0
    ensures Rs1(i) as bv64 == ((i >> 15) & 0x1F) as bv64
  {
  }

  function One(b: bool, n: nat): nat { if b then n else 0 }

  function High(i: bv32): (n: nat)
    ensures n < 4
  {
    One(i & 0x8000_0000 != 0, 2) + One(i & 0x4000_0000 != 0, 1)
  }

  function Middle(i: bv32): (n: nat)
    ensures n < 4
  {
    One(i & 0x2000_0000 != 0, 2) + One(i & 0x1000_0000 != 0, 1)
  }

  function LowUpper(i: bv32): (n: nat)
    ensures n < 0x10
  {
    One(i & 0x800_0000 != 0, 8) + One(i & 0x400_0000 != 0, 4) + One(i & 0x200_0000 != 0, 2)
    + One(i & 0x100_0000 != 0, 1)
  }

  function LowLower(i: bv32): (n: nat)
    ensures n < 0x10
  {
    One(i & 0x80_0000 != 0, 8) + One(i & 0x40_0000 != 0, 4) + One(i & 0x20_0000 != 0, 2) + One(i & 0x10_0000 != 0, 1)
  }

  lemma NumberParts(i: bv32)
    ensures CsrOf(i) == 0x400 * High(i) + 0x100 * Middle(i) + 0x10 * LowUpper(i) + LowLower(i)
  {
  }

  lemma QuartersOf(a: nat, high: nat, middle: nat, low: nat)
    requires a == 0x400 * high + 0x100 * middle + low && middle < 4 && low < 0x100
    ensures a / 0x400 == high && a / 0x100 % 4 == middle
  {
    DivModUnique(a, 0x100, 4 * high + middle, low);
    DivModUnique(a, 0x400, high, 0x100 * middle + low);
    DivModUnique(4 * high + middle, 4, high, middle);
  }

  lemma Quarters(i: bv32)
    ensures CsrOf(i) / 0x400 == High(i) && CsrOf(i) / 0x100 % 4 == Middle(i)
  {
    hide CsrOf, High, Middle, LowUpper, LowLower;
    NumberParts(i);
    QuartersOf(CsrOf(i), High(i), Middle(i), 0x10 * LowUpper(i) + LowLower(i));
  }

  lemma Pairs(i: bv32)
    ensures i & 0x3000_0000 == 0 <==> i & 0x2000_0000 == 0 && i & 0x1000_0000 == 0
    ensures i & 0x3000_0000 == 0x3000_0000 <==> i & 0x2000_0000 != 0 && i & 0x1000_0000 != 0
    ensures i & 0xC000_0000 == 0xC000_0000 <==> i & 0x8000_0000 != 0 && i & 0x4000_0000 != 0
  {
  }

  lemma PermittedIs(i: bv32, m: PT.Mode, write: bool)
    ensures Permitted(CsrOf(i), m, write) <==> Reaches(m, i) && !(write && ReadOnly(i))
  {
    hide CsrOf;
    Quarters(i);
    Pairs(i);
  }

  lemma ExistsIs(a: CF.CsrAddr)
    ensures ValidCsr(a) <==> Exists(a)
  {
  }

  /** The word that goes into the register, from what it shows and the operand. */
  predicate Combined(i: bv32, was: bv64, v: bv64, w: bv64, k: nat) {
    BitAt(w, k) <==>
      (if i & 0x3000 == 0x1000 then BitAt(v, k)
       else if i & 0x3000 == 0x2000 then BitAt(was, k) || BitAt(v, k)
       else BitAt(was, k) && !BitAt(v, k))
  }

  /** What the register shows: the clock for TIME, the comparator for a register swap with STIMECMP. */
  function ShownBy(h: Hart, i: bv32): bv64 {
    var a := CsrNumber(i);
    if a == 0xC01 then h.clint.mtime
    else if a == 0x14D && i & 0x7000 == 0x1000 then h.clint.stimecmp
    else CF.Read(h.csr, a)
  }

  /** The hart after `w` has gone into the register, unless the operand of a set or clear is 0. */
  function Written(h: Hart, i: bv32, w: bv64): Hart {
    var a := CsrNumber(i);
    var r := if i & 0x3000 == 0x1000 || Given(h, i) != 0 then CF.Write(h.csr, a, w) else h.csr;
    h.(csr := r, clint := if a == 0x14D && Writes(i) then h.clint.(stimecmp := CF.Read(r, 0x14D)) else h.clint)
  }

  lemma MaskBits(was: bv64, v: bv64, k: nat)
    requires k < 64
    ensures BitAt(CF.SetIn(was, v), k) <==> BitAt(was, k) || BitAt(v, k)
    ensures BitAt(CF.ClearIn(was, v), k) <==> BitAt(was, k) && !BitAt(v, k)
  {
    SetInIs(was, v);
    ClearInIs(was, v);
    hide CF.SetIn, CF.ClearIn, BitAt, Join, Meet, Complement;
    BitwiseBits(was, v, k);
    BitwiseBits(was, Complement(v), k);
    ComplementBits(v, k);
  }

  lemma SetInIs(was: bv64, v: bv64)
    ensures CF.SetIn(was, v) == Join(was, v)
  {
  }

  lemma ClearInIs(was: bv64, v: bv64)
    ensures CF.ClearIn(was, v) == Meet(was, Complement(v))
  {
    assert Complement(v) == !v;
    hide Complement;
  }

  lemma GivenIs(h: Hart, i: bv32)
    requires IsCsr(i)
    ensures (if Funct3(i) < 4 then X(h, Rs1(i)) else Rs1(i) as bv64) == Given(h, i)
    ensures !Writes(i) ==> Given(h, i) == 0
  {
    KindOf(i);
    OperandsAre(h, i);
    if !Writes(i) {
      FieldIsZero(h, i);
    }
    hide Funct3, X, Rs1, Operand1;
  }

  lemma FieldIsZero(h: Hart, i: bv32)
    requires i & 0xF_8000 == 0
    ensures Operand1(h, i) == 0 && ((i >> 15) & 0x1F) as bv64 == 0
  {
  }

  /** What goes into the register. */
  function NextWord(i: bv32, was: bv64, v: bv64): bv64 {
    if i & 0x3000 == 0x1000 then v else if i & 0x3000 == 0x2000 then CF.SetIn(was, v) else CF.ClearIn(was, v)
  }

  lemma NextBits(i: bv32, was: bv64, v: bv64, k: nat)
    requires IsCsr(i) && k < 64
    ensures Combined(i, was, v, NextWord(i, was, v), k)
  {
    hide CF.SetIn, CF.ClearIn, BitAt;
    MaskBits(was, v, k);
    Kinds(i);
  }

  lemma Kinds(i: bv32)
    requires IsCsr(i)
    ensures i & 0x3000 == 0x1000 || i & 0x3000 == 0x2000 || i & 0x3000 == 0x3000
    ensures i & 0x7000 == 0x1000 <==> i & 0x3000 == 0x1000 && i & 0x4000 == 0
  {
  }

  lemma SwapIs(h: Hart, a: CF.CsrAddr, v: bv64, fromBus: bool)
    requires a != 0xC01
    ensures var c := CsrSwap(h, a, v, fromBus);
      && c.was == (if a == 0x14D && fromBus then h.clint.stimecmp else CF.Read(h.csr, a))
      && c.csr == CF.Write(h.csr, a, v)
      && c.stimecmp == if a == 0x14D then v else h.clint.stimecmp
  {
    hide CF.Read, CF.Write;
  }

  lemma MaskIs(h: Hart, a: CF.CsrAddr, op: CF.Op, wanted: bool, writes: bool, v: bv64, w: bv64)
    requires op == CF.SetBits(a, v) || op == CF.ClearBits(a, v)
    requires w == if op.SetBits? then CF.SetIn(CF.Read(h.csr, a), v) else CF.ClearIn(CF.Read(h.csr, a), v)
    requires (a == 0xC01 || !wanted) ==> v == 0
    ensures var c := CsrMask(h, a, op, wanted, writes);
      && (wanted ==> c.was == if a == 0xC01 then h.clint.mtime else CF.Read(h.csr, a))
      && c.csr == (if v != 0 then CF.Write(h.csr, a, w) else h.csr)
      && c.stimecmp == if writes && a == 0x14D then CF.Read(c.csr, 0x14D) else h.clint.stimecmp
  {
    hide CF.Read, CF.Write, CF.SetIn, CF.ClearIn;
  }

  lemma ComparatorShown(r: CF.Regs, v: bv64)
    ensures CF.Read(CF.Write(r, 0x14D, v), 0x14D) == v
  {
  }

  /** What the access reads and leaves. */
  lemma AccessIs(h: Hart, i: bv32)
    requires IsCsr(i) && (ReadOnly(i) ==> !Writes(i))
    ensures var c := CsrAccess(h, Funct3(i), CsrOf(i), Rd(i), Rs1(i));
      var k := Written(h, i, NextWord(i, CF.Read(h.csr, CsrNumber(i)), Given(h, i)));
      && h.(csr := c.csr, clint := h.clint.(stimecmp := c.stimecmp)) == k
      && (Rd(i) != 0 ==> c.was == ShownBy(h, i))
  {
    var a, v := CsrNumber(i), Given(h, i);
    assert CsrOf(i) == a;
    ReadOnlyClock(i);
    KindOf(i);
    GivenIs(h, i);
    Kinds(i);
    hide Given, CsrNumber, CsrOf, Funct3, X, Rs1, Rd, ReadOnly, CF.Read, CF.Write, CsrSwap, CsrMask, CF.SetIn,
         CF.ClearIn;
    var w := NextWord(i, CF.Read(h.csr, a), v);
    if i & 0x3000 == 0x1000 {
      SwapIs(h, a, v, Funct3(i) == 1);
      ComparatorShown(h.csr, v);
    } else {
      var op := if i & 0x3000 == 0x2000 then CF.SetBits(a, v) else CF.ClearBits(a, v);
      MaskIs(h, a, op, Rd(i) != 0 || Rs1(i) != 0, Rs1(i) != 0, v, w);
    }
  }

  lemma ReadOnlyClock(i: bv32)
    ensures CsrNumber(i) == 0xC01 ==> ReadOnly(i)
  {
    Quarters(i);
    Pairs(i);
    assert CsrOf(i) == CsrNumber(i);
    hide CsrOf, CsrNumber;
  }

  lemma ExecuteSystem(h: Hart, i: bv32, len: bv64, o: Oracle)
    requires Opcode(i) == 0x73
    ensures Execute(h, i, len, o) ==
            if Funct3(i) == 0 then Privileged(h, i, len)
            else if Funct3(i) == 4 then Illegal(h, i)
            else CsrInstruction(h, i, len)
  {
    hide Opcode, Funct3, Privileged, Illegal, CsrInstruction;
  }

  lemma CompletedAccess(h: Hart, k: Hart, i: bv32, was: bv64, shown: bv64, len: bv64)
    requires k.pc == h.pc && (Rd(i) != 0 ==> was == shown)
    ensures Leaves(k, Write1(k, Rd(i), was, len), Destination(i), Unsigned(shown), Unsigned(h.pc) + Unsigned(len))
  {
    hide Write1, Rd, Destination, Unsigned;
    FieldsAre(i);
    WriteLeaves(k, i, was, len);
    RegisterZero(Rd(i));
  }

  lemma RegisterZero(r: bv5)
    ensures r == 0 <==> r as int == 0
  {
  }

  /** The six instructions that access a control and status register. A register that does not exist, that the mode
      does not reach, or that is read-only and would be written, makes the word illegal. Otherwise the destination gets
      what the register showed; a swap writes the operand, a set or clear the shown value with the bits of the operand
      set or clear, unless the operand is 0; and a write to STIMECMP moves the comparator. */
  lemma CsrOperations(h: Hart, i: bv32, len: bv64, o: Oracle) returns (w: bv64)
    requires IsCsr(i)
    ensures var out := Execute(h, i, len, o);
      if !Exists(CsrNumber(i)) || !Reaches(h.mode, i) || (Writes(i) && ReadOnly(i)) then
        out == Raise(h, Exc(PT.IllegalInstruction), i as bv64)
      else
        && Leaves(Written(h, i, w), out, Destination(i), Unsigned(ShownBy(h, i)), Unsigned(h.pc) + Unsigned(len))
        && forall k: nat :: k < 64 ==> Combined(i, CF.Read(h.csr, CsrNumber(i)), Given(h, i), w, k)
  {
    var was, v := CF.Read(h.csr, CsrNumber(i)), Given(h, i);
    w := NextWord(i, was, v);
    assert CsrOf(i) == CsrNumber(i);
    KindOf(i);
    hide Execute, CsrNumber, CsrOf, Given, Funct3, Rd, Rs1, Exists, Reaches, ReadOnly, Combined, CF.Read, CF.Write,
         ValidCsr, Permitted, CsrAccess, ShownBy, Written, Unsigned, Write1, Destination, Opcode, Leaves, NextWord;
    ExecuteSystem(h, i, len, o);
    ExistsIs(CsrNumber(i));
    PermittedIs(i, h.mode, Writes(i));
    forall k: nat | k < 64
      ensures Combined(i, was, v, w, k)
    {
      NextBits(i, was, v, k);
    }
    if Exists(CsrNumber(i)) && Reaches(h.mode, i) && !(Writes(i) && ReadOnly(i)) {
      AccessIs(h, i);
      SamePc(h, i, w);
      CompletedAccess(h, Written(h, i, w), i, CsrAccess(h, Funct3(i), CsrOf(i), Rd(i), Rs1(i)).was, ShownBy(h, i), len);
    }
  }

  lemma SamePc(h: Hart, i: bv32, w: bv64)
    ensures Written(h, i, w).pc == h.pc
  {
  }

  // ----- The other system words -----

  /** The number of the environment call of a mode. */
  function CallNumber(m: PT.Mode): nat {
    match m
    case User => 8
    case Supervisor => 9
    case _ => 11
  }

  /** The words that only go on: SFENCE.VMA, HFENCE.GVMA and HFENCE.VVMA by their seven highest bits, WFI, WRS.NTO and
      WRS.STO by their twelve. */
  predicate OnlyGoesOn(i: bv32) {
    || i & 0xFE00_0000 == 0x1200_0000 || i & 0xFE00_0000 == 0x6200_0000 || i & 0xFE00_0000 == 0x2200_0000
    || i & 0xFFF0_0000 == 0x1050_0000 || i & 0xFFF0_0000 == 0x00D0_0000 || i & 0xFFF0_0000 == 0x01D0_0000
  }

  lemma PrivilegedCodes(i: bv32)
    requires i & 0x707F == 0x73
    ensures Opcode(i) == 0x73 && Funct3(i) == 0
    ensures Funct7(i) == 0x09 <==> i & 0xFE00_0000 == 0x1200_0000
    ensures Funct7(i) == 0x31 <==> i & 0xFE00_0000 == 0x6200_0000
    ensures Funct7(i) == 0x11 <==> i & 0xFE00_0000 == 0x2200_0000
    ensures Imm12(i) == 0x105 <==> i & 0xFFF0_0000 == 0x1050_0000
    ensures Imm12(i) == 0x00D <==> i & 0xFFF0_0000 == 0x00D0_0000
    ensures Imm12(i) == 0x01D <==> i & 0xFFF0_0000 == 0x01D0_0000
  {
  }

  lemma ReturnCodes(i: bv32)
    ensures Imm12(i) == 0x000 <==> i & 0xFFF0_0000 == 0
    ensures Imm12(i) == 0x001 <==> i & 0xFFF0_0000 == 0x0010_0000
    ensures Imm12(i) == 0x302 <==> i & 0xFFF0_0000 == 0x3020_0000
    ensures Imm12(i) == 0x102 <==> i & 0xFFF0_0000 == 0x1020_0000
    ensures OnlyGoesOn(i) ==> i & 0xFFF0_0000 != 0 && i & 0xFFF0_0000 != 0x0010_0000
    ensures OnlyGoesOn(i) ==> i & 0xFFF0_0000 != 0x3020_0000 && i & 0xFFF0_0000 != 0x1020_0000
  {
  }

  /** ECALL raises the call of its mode with value 0, EBREAK the breakpoint with its own address, MRET and SRET return,
      the fences and waits go on, and every other word with funct3 0 is illegal. */
  lemma PrivilegedOperations(h: Hart, i: bv32, len: bv64, o: Oracle)
    requires i & 0x707F == 0x73
    ensures var out := Execute(h, i, len, o);
      if OnlyGoesOn(i) then Leaves(h, out, 0, 0, Unsigned(h.pc) + Unsigned(len))
      else if i & 0xFFF0_0000 == 0 then
        out.Raise? && out.hart == h && out.tval == 0 && out.trap.Exc? && TM.CauseOf(out.trap) == CallNumber(h.mode)
      else if i & 0xFFF0_0000 == 0x0010_0000 then
        out.Raise? && out.hart == h && out.tval == h.pc && out.trap.Exc? && TM.CauseOf(out.trap) == 3
      else if i & 0xFFF0_0000 == 0x3020_0000 then out == Outcome.Next(T.Mret(h))
      else if i & 0xFFF0_0000 == 0x1020_0000 then out == Outcome.Next(T.Sret(h))
      else out == Raise(h, Exc(PT.IllegalInstruction), i as bv64)
  {
    PrivilegedCodes(i);
    ReturnCodes(i);
    hide Execute, Opcode, Funct3, Funct7, Imm12, T.Mret, T.Sret, Unsigned, Plus;
    ExecuteSystem(h, i, len, o);
    GoesOn(h, len);
  }

  lemma GoesOn(h: Hart, len: bv64)
    ensures Leaves(h, Outcome.Next(Goto(h, Plus(h.pc, len))), 0, 0, Unsigned(h.pc) + Unsigned(len))
  {
    hide Plus, Unsigned;
    PcAfter(h, len);
  }
}
