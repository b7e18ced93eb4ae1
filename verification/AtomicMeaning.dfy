/** What the atomic memory operations leave in memory and in the register, in integers and single bits. */
module AtomicMeaning {
  import opened Words
  import opened WordNumbers
  import opened WordBits
  import opened Memory
  import opened HartState
  import opened BitManipulation
  import opened Standard
  import opened ArithmeticMeaning
  import opened InstructionMeaning
  import opened ControlMeaning
  import opened AccessMeaning
  import C = CarryLess
  import PT = PageTable
  import PL = PagingLaws
  import VA = VirtualAccess

  // ----- The result of the nine operations on `n` bits -----

  const AMOADD: bv32 := 0x0000_0000
  const AMOSWAP: bv32 := 0x0800_0000
  const AMOXOR: bv32 := 0x2000_0000
  const AMOOR: bv32 := 0x4000_0000
  const AMOAND: bv32 := 0x6000_0000
  const AMOMIN: bv32 := 0x8000_0000
  const AMOMAX: bv32 := 0xA000_0000
  const AMOMINU: bv32 := 0xC000_0000
  const AMOMAXU: bv32 := 0xE000_0000

  predicate Assigned(op: bv32) {
    || op == AMOADD || op == AMOSWAP || op == AMOXOR || op == AMOOR || op == AMOAND
    || op == AMOMIN || op == AMOMAX || op == AMOMINU || op == AMOMAXU
  }

  /** The operations that are told by the number they leave, for what was in memory and the operand. */
  function Numeric(op: bv32, n: nat, v: nat, y: nat): Option<int>
    requires n > 0
  {
    if op == AMOADD then Some(v + y)
    else if op == AMOSWAP then Some(y)
    else if op == AMOMIN then Some(if Wrapped(v, n) <= Wrapped(y, n) then v else y)
    else if op == AMOMAX then Some(if Wrapped(v, n) <= Wrapped(y, n) then y else v)
    else if op == AMOMINU then Some(if v % Pow2(n) <= y % Pow2(n) then v else y)
    else if op == AMOMAXU then Some(if v % Pow2(n) <= y % Pow2(n) then y else v)
    else None
  }

  /** The three that work on every bit by itself. */
  predicate BitResult(op: bv32, a: bool, b: bool, r: bool) {
    && (op == AMOXOR ==> r == (a != b))
    && (op == AMOOR ==> r == (a || b))
    && (op == AMOAND ==> r == (a && b))
  }

  /** `w` is what the operation leaves in the `n` bits of memory that held `v`, for operand `y`. */
  ghost predicate AmoResult(op: bv32, n: nat, v: nat, y: nat, w: nat)
    requires n > 0
  {
    && w < Pow2(n)
    && (Numeric(op, n, v, y).Some? ==> w == Numeric(op, n, v, y).value % Pow2(n))
    && (forall k: nat :: k < n ==> BitResult(op, Digit(v, k), Digit(y, k), Digit(w, k)))
  }

  // ----- Remainders and digits -----

  lemma DigitOfRemainder(a: nat, k: nat, n: nat)
    requires k < n
    ensures Digit(a % Pow2(n), k) <==> Digit(a, k)
  {
    var p, q := Pow2(k), Pow2(n - 1 - k);
    PowerAdds(k, n - k);
    assert Pow2(n - k) == 2 * q;
    hide Pow2;
    LowDigit(a, Pow2(n), p, q);
  }

  lemma LowDigit(a: nat, m: nat, p: nat, q: nat)
    requires p > 0 && q > 0 && m == p * (2 * q)
    ensures a % m / p % 2 == a / p % 2
  {
    var c, r := a / m, a % m;
    SplitAt(a, m);
    SplitAt(r, p);
    SplitAt(r / p, 2);
    Nested(p, 2 * q, c, r / p);
    assert a == p * (2 * q * c + r / p) + r % p;
    DivModUnique(a, p, 2 * q * c + r / p, r % p);
    EvenPart(q, c, r / p);
  }

  lemma EvenPart(q: int, c: int, d: int)
    ensures (2 * q * c + d) % 2 == d % 2
  {
    assert 2 * q * c == 2 * (q * c);
  }

  lemma WrappedRemainder(v: int, n: nat)
    requires n > 0
    ensures Wrapped(v, n) % Pow2(n) == v % Pow2(n)
  {
    hide Pow2;
    var h: int := Pow2(n - 1);
    ShiftedRemainder(v + h, Pow2(n), 0 - h);
  }

  lemma IntRemainder(a: int, n: nat)
    requires n == 32 || n == 64
    ensures a % TWO_64 % Pow2(n) == a % Pow2(n)
  {
    Powers();
    hide Pow2;
    NarrowMod(a);
  }

  // ----- The operands at the width of the operation -----

  function Bits(word: bool): nat { if word then 32 else 64 }

  lemma WrappedWhole(x: bv64)
    ensures Wrapped(Unsigned(x), 64) == Signed(x)
  {
    Powers();
    hide Pow2, Unsigned;
    if Unsigned(x) < TWO_63 {
      DivModUnique(Unsigned(x) + TWO_63, TWO_64, 0, Unsigned(x) + TWO_63);
    } else {
      DivModUnique(Unsigned(x) + TWO_63, TWO_64, 1, Unsigned(x) - TWO_63);
    }
  }

  lemma MaskedWord(y: bv64)
    ensures y & 0xFFFF_FFFF == Meet(y, 0xFFFF_FFFF)
  {
  }

  /** An operand keeps its lowest bits; the signed operations take their two's-complement value, the unsigned ones
      their number. */
  lemma OperandNumber(f5: bv5, word: bool, z: bv64)
    ensures var n := Bits(word);
      var a := Operand(f5, word, z);
      && Unsigned(a) % Pow2(n) == Unsigned(z) % Pow2(n)
      && (f5 == 0x18 || f5 == 0x1C ==> Unsigned(a) == Unsigned(z) % Pow2(n))
      && (f5 != 0x18 && f5 != 0x1C ==> Signed(a) == Wrapped(Unsigned(z), n))
  {
    hide Unsigned, Signed, Signed32, Meet, Wrapped;
    Powers();
    hide Pow2;
    Reduced(Unsigned(z));
    if word {
      MaskedWord(z);
      LowNumbers(z);
      SmallRemainder(Unsigned(z) % 0x1_0000_0000);
      SignExtensions(z);
      SignedNumber(Signed32(z));
      IntRemainder(Wrapped(Unsigned(z), 32), 32);
      WrappedRemainder(Unsigned(z), 32);
    } else {
      WrappedWhole(z);
    }
  }

  /** The value that the register receives. */
  lemma ReturnedNumber(word: bool, v: nat)
    ensures var n := Bits(word);
      && Unsigned(Returned(word, v)) == Wrapped(v, n) % TWO_64
      && Unsigned(Returned(word, v)) % Pow2(n) == v % Pow2(n)
      && Wrapped(Unsigned(Returned(word, v)), n) == Wrapped(v, n)
  {
    hide Unsigned, Signed, Signed32, Wide, Wrapped, Pow2;
    var n := Bits(word);
    WideNumber(v);
    RemainderOfPower(v, n);
    if word {
      SignExtensions(Wide(v));
      SignedNumber(Signed32(Wide(v)));
    } else {
      WholeWord(v);
    }
    IntRemainder(Wrapped(v, n), n);
    WrappedRemainder(v, n);
    WrappedLow(v, n);
    WrappedLow(Unsigned(Returned(word, v)), n);
  }

  // ----- The combination -----

  function Code(op: bv32): bv5 { (op >> 27) as bv5 }

  lemma Codes(op: bv32)
    requires Assigned(op)
    ensures IsAmo(Code(op))
    ensures (Code(op) == 0x18 || Code(op) == 0x1C) <==> (op == AMOMINU || op == AMOMAXU)
  {
  }

  lemma CodeValues(op: bv32)
    ensures op == AMOADD ==> Code(op) == 0x00
    ensures op == AMOSWAP ==> Code(op) == 0x01
    ensures op == AMOXOR ==> Code(op) == 0x04
    ensures op == AMOOR ==> Code(op) == 0x08
    ensures op == AMOAND ==> Code(op) == 0x0C
    ensures op == AMOMIN ==> Code(op) == 0x10
    ensures op == AMOMAX ==> Code(op) == 0x14
    ensures op == AMOMINU ==> Code(op) == 0x18
    ensures op == AMOMAXU ==> Code(op) == 0x1C
  {
  }

  lemma CombineIs(op: bv32, a: bv64, b: bv64)
    requires Assigned(op) && IsAmo(Code(op))
    ensures Combine(Code(op), a, b) ==
            if op == AMOADD then Plus(a, b)
            else if op == AMOSWAP then b
            else if op == AMOXOR then C.Xor(a, b)
            else if op == AMOOR then Or(a, b)
            else if op == AMOAND then And(a, b)
            else if op == AMOMIN then if Less(a, b) then a else b
            else if op == AMOMAX then if Less(a, b) then b else a
            else if op == AMOMINU then if a < b then a else b
            else if a < b then b else a
  {
    hide Plus, C.Xor, Or, And, Less, Code, IsAmo;
    CodeValues(op);
  }

  lemma SumRemainders(a: nat, b: nat, v: nat, y: nat, p: nat)
    requires p > 0 && a % p == v % p && b % p == y % p
    ensures (a + b) % p == (v + y) % p
  {
    ShiftedRemainder(a, p, b);
    ShiftedRemainder(v, p, b);
    ShiftedRemainder(b, p, v);
    ShiftedRemainder(y, p, v);
  }

  lemma CombinedUnsigned(op: bv32, n: nat, v: nat, y: nat, a: bv64, b: bv64)
    requires (op == AMOMINU || op == AMOMAXU) && IsAmo(Code(op)) && n > 0
    requires Unsigned(a) == v % Pow2(n) && Unsigned(b) == y % Pow2(n)
    requires Unsigned(a) % Pow2(n) == v % Pow2(n) && Unsigned(b) % Pow2(n) == y % Pow2(n)
    ensures Unsigned(Combine(Code(op), a, b)) % Pow2(n) == Numeric(op, n, v, y).value % Pow2(n)
  {
    hide Unsigned, Pow2, Combine, Plus, Less, Below, C.Xor, Or, And, Code, IsAmo, Wrapped;
    CombineIs(op, a, b);
    BelowIs(a, b);
    OrderNumber(a, b);
    EqualNumbers(a, b);
  }

  lemma CombinedSigned(op: bv32, n: nat, v: nat, y: nat, a: bv64, b: bv64)
    requires (op == AMOMIN || op == AMOMAX) && IsAmo(Code(op)) && n > 0
    requires Unsigned(a) % Pow2(n) == v % Pow2(n) && Unsigned(b) % Pow2(n) == y % Pow2(n)
    requires Signed(a) == Wrapped(v, n) && Signed(b) == Wrapped(y, n)
    ensures Unsigned(Combine(Code(op), a, b)) % Pow2(n) == Numeric(op, n, v, y).value % Pow2(n)
  {
    hide Unsigned, Signed, Pow2, Combine, Plus, Less, Below, C.Xor, Or, And, Code, IsAmo, Wrapped;
    CombineIs(op, a, b);
    LessIff(a, b);
    SameSigned(a, b);
  }

  lemma CombinedSum(op: bv32, n: nat, v: nat, y: nat, a: bv64, b: bv64)
    requires (op == AMOADD || op == AMOSWAP) && IsAmo(Code(op)) && (n == 32 || n == 64)
    requires Unsigned(a) % Pow2(n) == v % Pow2(n) && Unsigned(b) % Pow2(n) == y % Pow2(n)
    ensures Unsigned(Combine(Code(op), a, b)) % Pow2(n) == Numeric(op, n, v, y).value % Pow2(n)
  {
    hide Unsigned, Wrapped, Pow2, Combine, Plus, Code, IsAmo, Less, C.Xor, Or, And;
    CombineIs(op, a, b);
    SumNumbers(n, v, y, a, b);
  }

  lemma NumericCases(op: bv32, n: nat, v: nat, y: nat)
    requires n > 0 && Numeric(op, n, v, y).Some?
    ensures op == AMOADD || op == AMOSWAP || op == AMOMIN || op == AMOMAX || op == AMOMINU || op == AMOMAXU
  {
    hide Wrapped, Pow2;
  }

  /** The combined word modulo the width, for the numeric operations. */
  lemma CombinedNumber(op: bv32, n: nat, v: nat, y: nat, a: bv64, b: bv64)
    requires Assigned(op) && IsAmo(Code(op)) && (n == 32 || n == 64)
    requires Unsigned(a) % Pow2(n) == v % Pow2(n) && Unsigned(b) % Pow2(n) == y % Pow2(n)
    requires if op == AMOMINU || op == AMOMAXU then Unsigned(a) == v % Pow2(n) && Unsigned(b) == y % Pow2(n)
             else Signed(a) == Wrapped(v, n) && Signed(b) == Wrapped(y, n)
    ensures Numeric(op, n, v, y).Some? ==>
        Unsigned(Combine(Code(op), a, b)) % Pow2(n) == Numeric(op, n, v, y).value % Pow2(n)
  {
    hide *;
    if Numeric(op, n, v, y).Some? {
      NumericCases(op, n, v, y);
      if op == AMOADD || op == AMOSWAP {
        CombinedSum(op, n, v, y, a, b);
      } else if op == AMOMINU || op == AMOMAXU {
        CombinedUnsigned(op, n, v, y, a, b);
      } else {
        CombinedSigned(op, n, v, y, a, b);
      }
    }
  }

  lemma EqualNumbers(a: bv64, b: bv64)
    ensures Unsigned(a) == Unsigned(b) ==> a == b
  {
    hide Unsigned;
    if Unsigned(a) == Unsigned(b) {
      SameNumber(a, b);
    }
  }

  lemma SumNumbers(n: nat, v: nat, y: nat, a: bv64, b: bv64)
    requires n == 32 || n == 64
    requires Unsigned(a) % Pow2(n) == v % Pow2(n) && Unsigned(b) % Pow2(n) == y % Pow2(n)
    ensures Unsigned(Plus(a, b)) % Pow2(n) == (v + y) % Pow2(n)
  {
    hide Unsigned, Pow2, Plus, Added;
    PlusIs(a, b);
    AddNumber(a, b);
    IntRemainder(Unsigned(a) + Unsigned(b), n);
    SumRemainders(Unsigned(a), Unsigned(b), v, y, Pow2(n));
  }

  lemma CombinedBitwise(op: bv32, a: bv64, b: bv64, k: nat)
    requires Assigned(op) && IsAmo(Code(op)) && k < 64
    ensures BitResult(op, BitAt(a, k), BitAt(b, k), BitAt(Combine(Code(op), a, b), k))
  {
    hide Combine, Plus, Less, C.Xor, Or, And, BitAt, Code, IsAmo;
    CombineIs(op, a, b);
    LogicBits(a, b, k);
  }

  lemma CombinedBit(op: bv32, n: nat, v: nat, y: nat, a: bv64, b: bv64, k: nat)
    requires Assigned(op) && IsAmo(Code(op)) && (n == 32 || n == 64) && k < n
    requires Unsigned(a) % Pow2(n) == v % Pow2(n) && Unsigned(b) % Pow2(n) == y % Pow2(n)
    ensures BitResult(op, Digit(v, k), Digit(y, k), Digit(Unsigned(Combine(Code(op), a, b)) % Pow2(n), k))
  {
    hide Unsigned, Pow2, Combine, Digit, BitAt, BitResult, Assigned, Code, IsAmo;
    CombinedBitwise(op, a, b, k);
    SameDigit(a, v, k, n);
    SameDigit(b, y, k, n);
    var c := Combine(Code(op), a, b);
    DigitOfRemainder(Unsigned(c), k, n);
    DigitIsBit(c, k);
  }

  lemma SameDigit(a: bv64, v: nat, k: nat, n: nat)
    requires k < n && Unsigned(a) % Pow2(n) == v % Pow2(n)
    ensures Digit(v, k) <==> BitAt(a, k)
  {
    hide Unsigned, Pow2, Digit, BitAt;
    DigitOfRemainder(v, k, n);
    DigitOfRemainder(Unsigned(a), k, n);
    DigitIsBit(a, k);
  }

  lemma DigitIsBit(x: bv64, k: nat)
    ensures Digit(Unsigned(x), k) <==> BitAt(x, k)
  {
    hide Unsigned, Pow2;
  }

  function Combination(op: bv32, word: bool, v: nat, y: bv64): bv64
    requires IsAmo(Code(op))
  {
    Combine(Code(op), Operand(Code(op), word, Returned(word, v)), Operand(Code(op), word, y))
  }

  /** The combination leaves the result that the operation stands for. */
  lemma CombinationResult(op: bv32, word: bool, v: nat, y: bv64)
    requires Assigned(op) && IsAmo(Code(op))
    ensures AmoResult(op, Bits(word), v, Unsigned(y), Unsigned(Combination(op, word, v, y)) % Pow2(Bits(word)))
  {
    hide Unsigned, Signed, Wrapped, Pow2, Combine, Operand, Returned, Numeric, BitResult, Digit, Assigned, Code, IsAmo;
    var n := Bits(word);
    var a, b := Operand(Code(op), word, Returned(word, v)), Operand(Code(op), word, y);
    OperandNumber(Code(op), word, Returned(word, v));
    OperandNumber(Code(op), word, y);
    ReturnedNumber(word, v);
    Codes(op);
    CombinedNumber(op, n, v, Unsigned(y), a, b);
    forall k: nat | k < n
      ensures BitResult(op, Digit(v, k), Digit(Unsigned(y), k), Digit(Unsigned(Combine(Code(op), a, b)) % Pow2(n), k))
    {
      CombinedBit(op, n, v, Unsigned(y), a, b, k);
    }
    SplitAt(Unsigned(Combine(Code(op), a, b)), Pow2(n));
  }

  // ----- The instruction -----

  /** A bus write keeps only the bytes of its width. */
  lemma WriteLow(p: Phys, a: int, n: nat, v: nat)
    ensures WriteAt(p, a, n, v) == WriteAt(p, a, n, v % Pow256(n))
  {
    hide Pow256, ToBytes;
    ToBytesMod(v, n);
    ToBytesMod(v, 8);
  }

  const A_MASK: bv32 := 0xF800_707F

  /** The operation and whether it works on words rather than doublewords. */
  predicate IsAtomic(i: bv32, op: bv32, word: bool) {
    Assigned(op) && i & A_MASK == op | if word then 0x202F else 0x302F
  }

  lemma AtomicFields(i: bv32, op: bv32, word: bool)
    requires IsAtomic(i, op, word)
    ensures Opcode(i) == 0x2F && Funct5(i) == Code(op) && (Funct3(i) == if word then 2 else 3)
    ensures IsAmo(Code(op)) && Code(op) != LR && Code(op) != SC
  {
  }

  /** What is located for an atomic instruction: by a Load for LR, by a Store for the others. */
  function Located(h: Hart, va: bv64, access: PT.AccessType): PT.Translated {
    var c := SpaceOf(h);
    PT.Translate(h.mem, Num(va), access, c.mode, c.satp, c.mstatus)
  }

  lemma LocatedIs(h: Hart, va: bv64, access: PT.AccessType)
    ensures Locate(h, va, access) == Located(h, va, access)
  {
    hide PT.Translate, SpaceOf, Space, Num;
    SpaceIs(h);
  }

  /** The outcome of an atomic operation on `n` bits once its address `pa` is known: `v` is read, `w` written. */
  ghost predicate Updates(k: Hart, va: bv64, pa: u64, n: nat, w: nat, rd: nat, out: Outcome, target: int)
    requires n > 0
  {
    match ReadAt(k.mem, pa, n / 8)
    case None => out == Raise(k, Exc(PT.LoadAccessFault), va)
    case Some(v) =>
      match WriteAt(k.mem, pa, n / 8, w)
      case None => out == Raise(k, Exc(PT.StoreAMOAccessFault), va)
      case Some(m) => Leaves(k.(mem := m, reservation := None), out, rd, Wrapped(v, n), target)
  }

  lemma ExecuteAtomicUpdate(h: Hart, i: bv32, op: bv32, word: bool, len: bv64, o: Oracle)
    requires IsAtomic(i, op, word) && IsAmo(Code(op))
    ensures var va := Operand1(h, i);
      var t := Located(h, va, PT.Store);
      var k := h.(mem := t.mem);
      Execute(h, i, len, o) ==
        if t.result.Err? then Raise(k, Exc(t.result.error), va)
        else AtomicUpdate(k, Code(op), word, Rd(i), Rs2(i), va, t.result.value, len)
  {
    hide Execute, Opcode, Funct3, Funct5, Rd, Rs1, Rs2, X, Operand1, Operand2, Located, Locate, AtomicUpdate, IsAtomic,
         Code, IsAmo;
    AtomicFields(i, op, word);
    ExecuteLoad(h, i, len, o);
    OperandsAre(h, i);
    LocatedIs(h, Operand1(h, i), PT.Store);
  }

  lemma UpdateOutcome(k: Hart, op: bv32, word: bool, i: bv32, y: bv64, va: bv64, pa: u64, len: bv64, v: nat)
    requires IsAmo(Code(op)) && X(k, Rs2(i)) == y
    requires ReadAt(k.mem, pa, Bits(word) / 8) == Some(v)
    ensures var w := Unsigned(Combination(op, word, v, y)) % Pow256(Bits(word) / 8);
      Updates(k, va, pa, Bits(word), w, Destination(i),
        AtomicUpdate(k, Code(op), word, Rd(i), Rs2(i), va, pa, len), Unsigned(k.pc) + Unsigned(len))
  {
    hide Code, IsAmo, X, Rd, Rs2, Destination, ReadAt, WriteAt, Combine, Operand, Returned, Unsigned, Leaves, Wrapped,
         Pow2, Pow256, SetX;
    var n := Bits(word) / 8;
    var next := Combination(op, word, v, y);
    WriteLow(k.mem, pa, n, Unsigned(next));
    NumIs(next);
    hide Num;
    var w := WriteAt(k.mem, pa, n, Num(next));
    if w.Some? {
      ReturnedNumber(word, v);
      CompletedUpdate(k, i, w.value, Returned(word, v), Wrapped(v, Bits(word)), len);
    }
  }

  lemma CompletedUpdate(k: Hart, i: bv32, m: Phys, was: bv64, v: int, len: bv64)
    requires Unsigned(was) == v % TWO_64
    ensures Leaves(k.(mem := m, reservation := None),
                Next(Goto(ClearReservation(SetX(k.(mem := m), Rd(i), was)), Plus(k.pc, len))), Destination(i), v,
                Unsigned(k.pc) + Unsigned(len))
  {
    hide SetX, Plus, Unsigned, Rd, Destination;
    SetIs(k.(mem := m), Rd(i), was);
    FieldsAre(i);
    PcAfter(k, len);
  }

  lemma BytesOfBits(word: bool)
    ensures Pow256(Bits(word) / 8) == Pow2(Bits(word))
  {
    Powers();
    hide Pow2;
    WholeBytes();
  }

  lemma WholeBytes()
    ensures Pow256(4) == 0x1_0000_0000 && Pow256(8) == TWO_64
  {
  }

  /** An atomic memory operation translates its address as a store does, reads the old number there, writes the
      combination of it with the second register and leaves the old value, sign-extended, in the destination; the
      reservation is gone. Every refusal leaves only what the translation has marked. */
  lemma AtomicOperations(h: Hart, i: bv32, op: bv32, word: bool, len: bv64, o: Oracle) returns (w: nat)
    requires IsAtomic(i, op, word)
    ensures var va := Operand1(h, i);
      var t := Located(h, va, PT.Store);
      var k := h.(mem := t.mem);
      var out := Execute(h, i, len, o);
      match t.result
      case Err(e) => out == Raise(k, Exc(e), va)
      case Ok(pa) =>
        && Updates(k, va, pa, Bits(word), w, Destination(i), out, Unsigned(h.pc) + Unsigned(len))
        && var v := ReadAt(k.mem, pa, Bits(word) / 8);
          v.Some? ==> AmoResult(op, Bits(word), v.value, Unsigned(Operand2(h, i)), w)
  {
    hide Execute, Opcode, Funct3, Funct5, Rd, Rs1, Rs2, X, Operand1, Operand2, Located, AtomicUpdate, IsAtomic, Code,
         IsAmo, ReadAt, Combination, Unsigned, AmoResult, Destination, Pow2, Pow256, Assigned;
    w := 0;
    AtomicFields(i, op, word);
    ExecuteAtomicUpdate(h, i, op, word, len, o);
    var va, y := Operand1(h, i), Operand2(h, i);
    var t := Located(h, va, PT.Store);
    var k := h.(mem := t.mem);
    OperandsAre(k, i);
    assert Operand2(k, i) == y by {
      SameRegisters(h, t.mem, i);
    }
    if t.result.Ok? {
      var v := ReadAt(k.mem, t.result.value, Bits(word) / 8);
      if v.Some? {
        BytesOfBits(word);
        w := Unsigned(Combination(op, word, v.value, y)) % Pow2(Bits(word));
        AssignedOf(i, op, word);
        CombinationResult(op, word, v.value, y);
        UpdateOutcome(k, op, word, i, y, va, t.result.value, len, v.value);
      } else {
        UnreadableUpdate(k, op, word, i, va, t.result.value, len);
      }
    }
  }

  lemma AssignedOf(i: bv32, op: bv32, word: bool)
    requires IsAtomic(i, op, word)
    ensures Assigned(op)
  {
  }

  lemma SameRegisters(h: Hart, m: Phys, i: bv32)
    ensures Operand2(h.(mem := m), i) == Operand2(h, i)
  {
    hide Destination;
  }

  lemma UnreadableUpdate(k: Hart, op: bv32, word: bool, i: bv32, va: bv64, pa: u64, len: bv64)
    requires IsAmo(Code(op)) && ReadAt(k.mem, pa, Bits(word) / 8) == None
    ensures AtomicUpdate(k, Code(op), word, Rd(i), Rs2(i), va, pa, len) == Raise(k, Exc(PT.LoadAccessFault), va)
  {
    hide Code, IsAmo, ReadAt, Combine, Rd, Rs2, X;
  }

  // ----- Load-reserved -----

  lemma ReservedFields(i: bv32, word: bool)
    requires i & A_MASK == if word then 0x1000_202F else 0x1000_302F
    ensures Opcode(i) == 0x2F && Funct5(i) == LR && (Funct3(i) == if word then 2 else 3)
  {
  }

  lemma CompletedReserve(k: Hart, i: bv32, pa: u64, was: bv64, v: int, len: bv64)
    requires Unsigned(was) == v % TWO_64
    ensures var out := Next(Goto(Reserve(SetX(k, Rd(i), was), pa), Plus(k.pc, len)));
      && Leaves(k.(reservation := out.hart.reservation), out, Destination(i), v, Unsigned(k.pc) + Unsigned(len))
      && Reserved(out.hart, pa)
  {
    hide SetX, Plus, Unsigned, Rd, Destination, Granule;
    SetIs(k, Rd(i), was);
    FieldsAre(i);
    PcAfter(k, len);
  }

  lemma ExecuteReserve(h: Hart, i: bv32, word: bool, len: bv64, o: Oracle)
    requires i & A_MASK == if word then 0x1000_202F else 0x1000_302F
    ensures var va := Operand1(h, i);
      var t := Located(h, va, PT.Load);
      var k := h.(mem := t.mem);
      Execute(h, i, len, o) ==
        if t.result.Err? then Raise(k, Exc(t.result.error), va)
        else LoadReserved(k, word, Rd(i), va, t.result.value, len)
  {
    hide Execute, Opcode, Funct3, Funct5, Rd, Rs1, Rs2, X, Operand1, Operand2, Located, Locate, LoadReserved;
    ReservedFields(i, word);
    ExecuteLoad(h, i, len, o);
    OperandsAre(h, i);
    LocatedIs(h, Operand1(h, i), PT.Load);
  }

  /** A load-reserved leaves the number it reads, in two's complement, and the reservation of its address. */
  lemma LoadReservedOperation(h: Hart, i: bv32, word: bool, len: bv64, o: Oracle)
    requires i & A_MASK == if word then 0x1000_202F else 0x1000_302F
    ensures var va := Operand1(h, i);
      var t := Located(h, va, PT.Load);
      var k := h.(mem := t.mem);
      var out := Execute(h, i, len, o);
      match t.result
      case Err(e) => out == Raise(k, Exc(e), va)
      case Ok(pa) =>
        match ReadAt(k.mem, pa, Bits(word) / 8)
        case None => out == Raise(k, Exc(PT.LoadAccessFault), va)
        case Some(v) =>
          && out.Next? && Reserved(out.hart, pa)
          && Leaves(k.(reservation := out.hart.reservation), out, Destination(i), Wrapped(v, Bits(word)),
              Unsigned(h.pc) + Unsigned(len))
  {
    hide Execute, Operand1, Located, Destination, Unsigned, Leaves, Wrapped, ReadAt, Returned, Reserved, Reserve, SetX,
         Rd, Pow2;
    var va := Operand1(h, i);
    var t := Located(h, va, PT.Load);
    var k := h.(mem := t.mem);
    ExecuteReserve(h, i, word, len, o);
    if t.result.Ok? {
      var v := ReadAt(k.mem, t.result.value, Bits(word) / 8);
      if v.Some? {
        ReturnedNumber(word, v.value);
        CompletedReserve(k, i, t.result.value, Returned(word, v.value), Wrapped(v.value, Bits(word)), len);
      }
    }
  }
}
