/** The 16-bit instructions: expansion into 32-bit words, and what each word does. */
module Compressed {
  import opened Words
  import opened HartState
  import opened Traps
  import opened Standard
  import opened Expansion
  import PT = PageTable

  // ----- Fields of a 16-bit instruction -----

  function Quadrant(c: bv16): bv2 { (c & 0x3) as bv2 }

  function F3(c: bv16): bv3 { ((c >> 13) & 0x7) as bv3 }

  /** The register numbers 8 to 15 in bits 4:2 and in bits 9:7. */
  function Short2(c: bv16): bv5 { (((c >> 2) & 0x7) + 8) as bv5 }

  function Short7(c: bv16): bv5 { (((c >> 7) & 0x7) + 8) as bv5 }

  function Reg2(c: bv16): bv5 { ((c >> 2) & 0x1F) as bv5 }

  function Reg7(c: bv16): bv5 { ((c >> 7) & 0x1F) as bv5 }

  predicate Bit12(c: bv16) { c & 0x1000 != 0 }

  function Low2(c: bv16): bv2 { ((c >> 10) & 0x3) as bv2 }

  function Mid2(c: bv16): bv2 { ((c >> 5) & 0x3) as bv2 }

  // ----- Immediates as the ISA manual lists them, bit by bit -----

  function SpecAddi4spn(c: bv16): bv12 {
    ((((c >> 12) & 1) << 5) | (((c >> 11) & 1) << 4) | (((c >> 10) & 1) << 9) | (((c >> 9) & 1) << 8) |
        (((c >> 8) & 1) << 7) | (((c >> 7) & 1) << 6) | (((c >> 6) & 1) << 2) | (((c >> 5) & 1) << 3)) as bv12
  }

  function SpecWord(c: bv16): bv12 {
    ((((c >> 12) & 1) << 5) | (((c >> 11) & 1) << 4) | (((c >> 10) & 1) << 3) | (((c >> 6) & 1) << 2) |
        (((c >> 5) & 1) << 6)) as bv12
  }

  function SpecDouble(c: bv16): bv12 {
    ((((c >> 12) & 1) << 5) | (((c >> 11) & 1) << 4) | (((c >> 10) & 1) << 3) | (((c >> 6) & 1) << 7) |
        (((c >> 5) & 1) << 6)) as bv12
  }

  function SpecWordSp(c: bv16): bv12 {
    ((((c >> 12) & 1) << 5) | (((c >> 6) & 1) << 4) | (((c >> 5) & 1) << 3) | (((c >> 4) & 1) << 2) |
        (((c >> 3) & 1) << 7) | (((c >> 2) & 1) << 6)) as bv12
  }

  function SpecDoubleSp(c: bv16): bv12 {
    ((((c >> 12) & 1) << 5) | (((c >> 6) & 1) << 4) | (((c >> 5) & 1) << 3) | (((c >> 4) & 1) << 8) |
        (((c >> 3) & 1) << 7) | (((c >> 2) & 1) << 6)) as bv12
  }

  function SpecWordSpS(c: bv16): bv12 {
    ((((c >> 12) & 1) << 5) | (((c >> 11) & 1) << 4) | (((c >> 10) & 1) << 3) | (((c >> 9) & 1) << 2) |
        (((c >> 8) & 1) << 7) | (((c >> 7) & 1) << 6)) as bv12
  }

  function SpecDoubleSpS(c: bv16): bv12 {
    ((((c >> 12) & 1) << 5) | (((c >> 11) & 1) << 4) | (((c >> 10) & 1) << 3) | (((c >> 9) & 1) << 8) |
        (((c >> 8) & 1) << 7) | (((c >> 7) & 1) << 6)) as bv12
  }

  function SpecShift(c: bv16): bv12 {
    ((((c >> 12) & 1) << 5) | (((c >> 6) & 1) << 4) | (((c >> 5) & 1) << 3) | (((c >> 4) & 1) << 2) |
        (((c >> 3) & 1) << 1) | (((c >> 2) & 1) << 0)) as bv12
  }

  /** A six-bit signed immediate, its sign in bit 12. */
  function SpecSmall(c: bv16): bv12 {
    (if Bit12(c) then 0xFE0 else 0) | (((c >> 2) & 0x1F) as bv12)
  }

  function SpecAddi16sp(c: bv16): bv12 {
    (if Bit12(c) then 0xE00 else 0) |
        (((((c >> 6) & 1) << 4) | (((c >> 5) & 1) << 6) | (((c >> 4) & 1) << 8) | (((c >> 3) & 1) << 7) |
            (((c >> 2) & 1) << 5)) as bv12)
  }

  function SpecLui(c: bv16): bv20 {
    (if Bit12(c) then 0xF_FFE0 else 0) | (((c >> 2) & 0x1F) as bv20)
  }

  function SpecJump(c: bv16): bv21 {
    (if Bit12(c) then 0x1F_F800 else 0)
    | (((((c >> 11) & 1) << 4) | (((c >> 10) & 1) << 9) | (((c >> 9) & 1) << 8) | (((c >> 8) & 1) << 10) |
        (((c >> 7) & 1) << 6) | (((c >> 6) & 1) << 7) | (((c >> 5) & 1) << 3) | (((c >> 4) & 1) << 2) |
            (((c >> 3) & 1) << 1) | (((c >> 2) & 1) << 5)) as bv21)
  }

  function SpecBranch(c: bv16): bv13 {
    (if Bit12(c) then 0x1F00 else 0)
    | (((((c >> 11) & 1) << 4) | (((c >> 10) & 1) << 3) | (((c >> 6) & 1) << 7) | (((c >> 5) & 1) << 6) |
        (((c >> 4) & 1) << 2) | (((c >> 3) & 1) << 1) | (((c >> 2) & 1) << 5)) as bv13)
  }

  // ----- Immediates as the decoder computes them -----

  function ImmAddi4spn(c: bv16): bv64 {
    ((((c >> 11) & 0x3) << 4) | (((c >> 7) & 0xF) << 6) | (((c >> 6) & 0x1) << 2) | (((c >> 5) & 0x1) << 3)) as bv64
  }

  function ImmWord(c: bv16): bv64 {
    ((((c >> 10) & 0x7) << 3) | (((c >> 6) & 0x1) << 2) | (((c >> 5) & 0x1) << 6)) as bv64
  }

  function ImmDouble(c: bv16): bv64 {
    ((((c >> 10) & 0x7) << 3) | (((c >> 5) & 0x3) << 6)) as bv64
  }

  function ImmWordSp(c: bv16): bv64 {
    ((((c >> 12) & 0x1) << 5) | (((c >> 4) & 0x7) << 2) | (((c >> 2) & 0x3) << 6)) as bv64
  }

  function ImmDoubleSp(c: bv16): bv64 {
    ((((c >> 12) & 0x1) << 5) | (((c >> 5) & 0x3) << 3) | (((c >> 2) & 0x7) << 6)) as bv64
  }

  function ImmWordSpS(c: bv16): bv64 {
    ((((c >> 9) & 0xF) << 2) | (((c >> 7) & 0x3) << 6)) as bv64
  }

  function ImmDoubleSpS(c: bv16): bv64 {
    ((((c >> 10) & 0x7) << 3) | (((c >> 7) & 0x7) << 6)) as bv64
  }

  function ImmShift(c: bv16): bv64 {
    ((((c >> 12) & 0x1) << 5) | ((c >> 2) & 0x1F)) as bv64
  }

  /** Shifting left and back right arithmetically: the bits from `sign` up become copies of it. */
  function SextFrom(x: bv64, sign: bv64, above: bv64): bv64 {
    Sext(x & sign != 0, above, x & !above)
  }

  function ImmSmall(c: bv16): bv64 {
    SextFrom(ImmShift(c), 0x20, 0xFFFF_FFFF_FFFF_FFE0)
  }

  function ImmAddi16sp(c: bv16): bv64 {
    SextFrom(((((c >> 12) & 0x1) << 9) | (((c >> 6) & 0x1) << 4) | (((c >> 5) & 0x1) << 6) | (((c >> 3) & 0x3) << 7)
              | (((c >> 2) & 0x1) << 5)) as bv64, 0x200, 0xFFFF_FFFF_FFFF_FE00)
  }

  function ImmLui(c: bv16): bv64 {
    SextFrom(((((c as bv64) >> 12) & 0x1) << 17) | ((((c as bv64) >> 2) & 0x1F) << 12), 0x2_0000, 0xFFFF_FFFF_FFFE_0000)
  }

  function ImmJump(c: bv16): bv64 {
    SextFrom(((((c >> 12) & 0x1) << 11) | (((c >> 11) & 0x1) << 4) | (((c >> 9) & 0x3) << 8) | (((c >> 8) & 0x1) << 10)
              | (((c >> 7) & 0x1) << 6) | (((c >> 6) & 0x1) << 7) | (((c >> 3) & 0x7) << 1) |
                  (((c >> 2) & 0x1) << 5)) as bv64,
             0x800, 0xFFFF_FFFF_FFFF_F800)
  }

  function ImmBranch(c: bv16): bv64 {
    SextFrom(((((c >> 12) & 0x1) << 8) | (((c >> 10) & 0x3) << 3) | (((c >> 5) & 0x3) << 6) | (((c >> 3) & 0x3) << 1)
              | (((c >> 2) & 0x1) << 5)) as bv64, 0x100, 0xFFFF_FFFF_FFFF_FF00)
  }

  // ----- The decoder finds the immediates of the manual -----

  lemma DecodesAddi4spn(c: bv16)
    ensures Sext12(SpecAddi4spn(c)) == ImmAddi4spn(c)
  {
  }

  lemma DecodesWord(c: bv16)
    ensures Sext12(SpecWord(c)) == ImmWord(c)
  {
  }

  lemma DecodesDouble(c: bv16)
    ensures Sext12(SpecDouble(c)) == ImmDouble(c)
  {
  }

  lemma DecodesWordSp(c: bv16)
    ensures Sext12(SpecWordSp(c)) == ImmWordSp(c)
  {
  }

  lemma DecodesDoubleSp(c: bv16)
    ensures Sext12(SpecDoubleSp(c)) == ImmDoubleSp(c)
  {
  }

  lemma DecodesWordSpS(c: bv16)
    ensures Sext12(SpecWordSpS(c)) == ImmWordSpS(c)
  {
  }

  lemma DecodesDoubleSpS(c: bv16)
    ensures Sext12(SpecDoubleSpS(c)) == ImmDoubleSpS(c)
  {
  }

  lemma DecodesShift(c: bv16)
    ensures Sext12(SpecShift(c)) == ImmShift(c)
  {
  }

  lemma SmallPositive(c: bv16)
    requires !Bit12(c)
    ensures Sext12(SpecSmall(c)) == ImmSmall(c)
  {
  }

  lemma SmallNegative(c: bv16)
    requires Bit12(c)
    ensures Sext12(SpecSmall(c)) == ImmSmall(c)
  {
  }

  lemma DecodesSmall(c: bv16)
    ensures Sext12(SpecSmall(c)) == ImmSmall(c)
  {
    hide Sext12, SpecSmall, ImmSmall, Bit12;
    if Bit12(c) {
      SmallNegative(c);
    } else {
      SmallPositive(c);
    }
  }

  lemma DecodesAddi16sp(c: bv16)
    ensures Sext12(SpecAddi16sp(c)) == ImmAddi16sp(c)
  {
  }

  lemma DecodesLui(c: bv16)
    ensures Upper(SpecLui(c)) == ImmLui(c)
  {
  }

  lemma JumpForward(c: bv16)
    requires !Bit12(c)
    ensures Sext21(SpecJump(c)) == ImmJump(c)
    ensures SpecJump(c) & 1 == 0
  {
  }

  lemma JumpBackward(c: bv16)
    requires Bit12(c)
    ensures Sext21(SpecJump(c)) == ImmJump(c)
    ensures SpecJump(c) & 1 == 0
  {
  }

  lemma DecodesJump(c: bv16)
    ensures Sext21(SpecJump(c)) == ImmJump(c)
    ensures SpecJump(c) & 1 == 0
  {
    hide Sext21, SpecJump, ImmJump, Bit12;
    if Bit12(c) {
      JumpBackward(c);
    } else {
      JumpForward(c);
    }
  }

  lemma BranchForward(c: bv16)
    requires !Bit12(c)
    ensures Sext13(SpecBranch(c)) == ImmBranch(c)
    ensures SpecBranch(c) & 1 == 0
  {
  }

  lemma BranchBackward(c: bv16)
    requires Bit12(c)
    ensures Sext13(SpecBranch(c)) == ImmBranch(c)
    ensures SpecBranch(c) & 1 == 0
  {
  }

  lemma DecodesBranch(c: bv16)
    ensures Sext13(SpecBranch(c)) == ImmBranch(c)
    ensures SpecBranch(c) & 1 == 0
  {
    hide Sext13, SpecBranch, ImmBranch, Bit12;
    if Bit12(c) {
      BranchBackward(c);
    } else {
      BranchForward(c);
    }
  }

  // ----- Expansion -----

  function Expand0(c: bv16): Option<bv32> {
    var f3 := F3(c);
    if f3 == 0 then if SpecAddi4spn(c) == 0 then None else Some(IWord(SpecAddi4spn(c), 2, 0, Short2(c), 0x13))
    else if f3 == 1 then Some(IWord(SpecDouble(c), Short7(c), 3, Short2(c), 0x07))
    else if f3 == 2 then Some(IWord(SpecWord(c), Short7(c), 2, Short2(c), 0x03))
    else if f3 == 3 then Some(IWord(SpecDouble(c), Short7(c), 3, Short2(c), 0x03))
    else if f3 == 4 then None
    else if f3 == 5 then Some(SWord(SpecDouble(c), Short2(c), Short7(c), 3, 0x27))
    else if f3 == 6 then Some(SWord(SpecWord(c), Short2(c), Short7(c), 2, 0x23))
    else Some(SWord(SpecDouble(c), Short2(c), Short7(c), 3, 0x23))
  }

  /** The arithmetic on the short registers: shifts, AND with an immediate, and six register operations. */
  function ExpandArithmetic(c: bv16): Option<bv32> {
    var r := Short7(c);
    var k := Low2(c);
    var m := Mid2(c);
    if k == 0 then Some(IWord(SpecShift(c), r, 5, r, 0x13))
    else if k == 1 then Some(IWord(0x400 | SpecShift(c), r, 5, r, 0x13))
    else if k == 2 then Some(IWord(SpecSmall(c), r, 7, r, 0x13))
    else if !Bit12(c) then
      if m == 0 then Some(RWord(0x20, Short2(c), r, 0, r, 0x33))
      else if m == 1 then Some(RWord(0, Short2(c), r, 4, r, 0x33))
      else if m == 2 then Some(RWord(0, Short2(c), r, 6, r, 0x33))
      else Some(RWord(0, Short2(c), r, 7, r, 0x33))
    else if m == 0 then Some(RWord(0x20, Short2(c), r, 0, r, 0x3B))
    else if m == 1 then Some(RWord(0, Short2(c), r, 0, r, 0x3B))
    else None
  }

  function Expand1(c: bv16): Option<bv32> {
    var f3 := F3(c);
    if f3 == 0 then Some(IWord(SpecSmall(c), Reg7(c), 0, Reg7(c), 0x13))
    else if f3 == 1 then Some(IWord(SpecSmall(c), Reg7(c), 0, Reg7(c), 0x1B))
    else if f3 == 2 then Some(IWord(SpecSmall(c), 0, 0, Reg7(c), 0x13))
    else if f3 == 3 then
      if Reg7(c) == 2 then Some(IWord(SpecAddi16sp(c), 2, 0, 2, 0x13)) else Some(UWord(SpecLui(c), Reg7(c), 0x37))
    else if f3 == 4 then ExpandArithmetic(c)
    else if f3 == 5 then Some(JWord(SpecJump(c), 0, 0x6F))
    else if f3 == 6 then Some(BWord(SpecBranch(c), 0, Short7(c), 0, 0x63))
    else Some(BWord(SpecBranch(c), 0, Short7(c), 1, 0x63))
  }

  function ExpandRegister(c: bv16): bv32 {
    if !Bit12(c) then
      if Reg2(c) == 0 then IWord(0, Reg7(c), 0, 0, 0x67) else RWord(0, Reg2(c), 0, 0, Reg7(c), 0x33)
    else if Reg2(c) != 0 then RWord(0, Reg2(c), Reg7(c), 0, Reg7(c), 0x33)
    else if Reg7(c) == 0 then IWord(1, 0, 0, 0, 0x73)
    else IWord(0, Reg7(c), 0, 1, 0x67)
  }

  function Expand2(c: bv16): Option<bv32> {
    var f3 := F3(c);
    if f3 == 0 then Some(IWord(SpecShift(c), Reg7(c), 1, Reg7(c), 0x13))
    else if f3 == 1 then Some(IWord(SpecDoubleSp(c), 2, 3, Reg7(c), 0x07))
    else if f3 == 2 then if Reg7(c) == 0 then None else Some(IWord(SpecWordSp(c), 2, 2, Reg7(c), 0x03))
    else if f3 == 3 then if Reg7(c) == 0 then None else Some(IWord(SpecDoubleSp(c), 2, 3, Reg7(c), 0x03))
    else if f3 == 4 then Some(ExpandRegister(c))
    else if f3 == 5 then Some(SWord(SpecDoubleSpS(c), Reg2(c), 2, 3, 0x27))
    else if f3 == 6 then Some(SWord(SpecWordSpS(c), Reg2(c), 2, 2, 0x23))
    else Some(SWord(SpecDoubleSpS(c), Reg2(c), 2, 3, 0x23))
  }

  /** The 32-bit word that a 16-bit instruction abbreviates; `None` for a reserved encoding. */
  function Expand(c: bv16): Option<bv32> {
    var q := Quadrant(c);
    if q == 0 then Expand0(c) else if q == 1 then Expand1(c) else if q == 2 then Expand2(c) else None
  }

  // ----- Jumps through a register -----

  /** C.JR and C.JALR. */
  predicate IsRegisterJump(c: bv16) {
    Quadrant(c) == 2 && F3(c) == 4 && Reg2(c) == 0 && !(Bit12(c) && Reg7(c) == 0)
  }

  /** What the emulator does for them: the link register is written before the target is read, and the
      target keeps its lowest bit. */
  function RegisterJump(h: Hart, c: bv16): Hart {
    var k := if Bit12(c) then SetX(h, 1, Plus(h.pc, 2)) else h;
    Goto(k, X(k, Reg7(c)))
  }

  /** The effect of a 16-bit instruction. */
  function ExecuteShort(h: Hart, c: bv16, o: Oracle): Outcome {
    match Expand(c)
    case None => Raise(h, Exc(PT.IllegalInstruction), c as bv64)
    case Some(w) => if IsRegisterJump(c) then Next(RegisterJump(h, c)) else Execute(h, w, 2, o)
  }
}
