/** The interrupt controller told by the digits of its registers and the numbers of its offsets. */
module PlicMeaning {
  import opened Words
  import opened WordNumbers
  import opened WordBits
  import opened PlicDevice
  import opened PlicLaws
  import AM = ArithmeticMeaning
  import IM = InstructionMeaning
  import S = Standard
  import C = CarryLess

  /** The number of a register. */
  function Value(w: bv32): nat { AM.Word(w) }

  /** Digit n mod 32 of word n div 32 of a bank. */
  predicate BankDigit(b: Bank, n: nat)
    requires n < 1024
  {
    Digit(Value(b[n / 32]), n % 32)
  }

  // ----- Bits of a bank as digits -----

  lemma PlaceIs(n: nat)
    requires n < 32
    ensures Place(n) as int == n
  {
  }

  lemma OneIs(i: bv5)
    ensures OneAt(i) == S.ShiftLeft32(1, i)
  {
  }

  lemma OneNumber(i: bv5)
    requires 0 <= i as int < 32
    ensures AM.Long(OneAt(i)) == C.ShiftLeft(1, AsSix(i))
  {
    hide OneAt, S.ShiftLeft32, Unsigned, C.ShiftLeft, AM.Long, Position, Pow2;
    OneIs(i);
    AM.Shifts32(1, i);
    OneIsOne();
    ShiftNumbers(1, AsSix(i));
    SixIs(i);
    Bits0And1();
    PowerFits(i as int);
    SameNumber(AM.Long(OneAt(i)), C.ShiftLeft(1, AsSix(i)));
  }

  function AsSix(i: bv5): bv6 { i as bv6 }

  lemma SixIs(i: bv5)
    ensures Position(AsSix(i)) == i as int
  {
  }

  lemma OneIsOne()
    ensures AM.Long(1) == 1
  {
  }

  lemma PowerFits(n: nat)
    requires n < 32
    ensures Pow2(n) < 0x1_0000_0000 && Pow2(n) % 0x1_0000_0000 == Pow2(n) && Pow2(n) % TWO_64 == Pow2(n)
  {
    hide Pow2;
    Powers();
    PowerAdds(n, 32 - n);
    IM.EvenPower(32 - n);
    IM.LargerPower(Pow2(n), Pow2(32 - n));
  }

  lemma MaskedIs(w: bv32, mask: bv32)
    ensures AM.Long(Masked(w, mask)) == WordBits.Meet(AM.Long(w), AM.Long(mask))
    ensures Masked(w, mask) == 0 <==> AM.Long(Masked(w, mask)) == 0
  {
  }

  lemma MeetOneBit(x: bv64, n: bv6)
    ensures WordBits.Meet(x, C.ShiftLeft(1, n)) != 0 <==> BitAt(x, Position(n))
  {
    hide WordBits.Meet, C.ShiftLeft, BitAt, Position;
    var one := C.ShiftLeft(1, n);
    if WordBits.Meet(x, one) == 0 {
      BitwiseBits(x, one, Position(n));
      IM.OneBit(n, Position(n));
      ZeroAndOnes(Position(n));
    } else if !BitAt(x, Position(n)) {
      forall k: nat | k < 64
        ensures BitAt(WordBits.Meet(x, one), k) <==> BitAt(0, k)
      {
        BitwiseBits(x, one, k);
        IM.OneBit(n, k);
        ZeroAndOnes(k);
      }
      SameBits(WordBits.Meet(x, one), 0);
    }
  }

  lemma HoldsNumber(w: bv32, i: bv5)
    requires 0 <= i as int < 32
    ensures Holds(w, i) <==> Digit(Value(w), i as int)
  {
    hide OneAt, Masked, WordBits.Meet, C.ShiftLeft, AM.Long, Unsigned, Position, Pow2;
    MaskedIs(w, OneAt(i));
    OneNumber(i);
    MeetOneBit(AM.Long(w), AsSix(i));
    SixIs(i);
  }

  lemma BitNumber(b: Bank, n: nat)
    requires n < 1024
    ensures BitOf(b, n) <==> BankDigit(b, n)
  {
    hide Holds, Place, Digit, Value;
    PlaceIs(n % 32);
    HoldsNumber(b[n / 32], Place(n % 32));
  }

  // ----- Claims -----

  /** The interrupt would be taken: its digit is set in the pending bank and in the enable bank of the context, and its
      priority is above the context's threshold. Number 0 does not exist. */
  predicate Wants(p: State, context: nat, irq: nat) {
    && 1 <= irq <= 1023
    && BankDigit(p.pending, irq)
    && BankDigit(if context == 0 then p.enable0 else p.enable1, irq)
    && p.priority[irq] > if context == 0 then p.threshold0 else p.threshold1
  }

  lemma EligibleIs(p: State, context: nat, irq: nat)
    ensures Eligible(p, context, irq) <==> Wants(p, context, irq)
  {
    hide BitOf, BankDigit;
    if 0 < irq < 1024 {
      BitNumber(p.pending, irq);
      BitNumber(EnableOf(p, context), irq);
    }
  }

  /** `c` wants to be taken, and every other that does has a lower priority, or the same and a higher number. */
  ghost predicate First(p: State, context: nat, c: nat) {
    && Wants(p, context, c)
    && forall j: nat :: Wants(p, context, j) && j != c ==>
        p.priority[c] > p.priority[j] || (p.priority[c] == p.priority[j] && c < j)
  }

  function ClaimOffset(context: nat): nat { if context == 0 then 0x20_0004 else 0x20_1004 }

  lemma SmallWord(n: nat)
    requires n < 0x1_0000_0000
    ensures Value(Number32(n)) == n
  {
    var w := S.Low32(n as bv64);
    FromNumber(n);
    AM.LowWord(n as bv64, 0);
    AM.WordIs(w);
    IM.SmallRemainder(n);
    hide Value, Unsigned, S.Low32;
  }

  /** Reading a context's claim register returns the first of the interrupts that want to be taken, by priority and then
      by number, or 0 when there is none, and clears its pending digit and nothing else. */
  lemma ClaimByNumbers(p: State, context: nat, j: nat)
    requires context < 2 && j < 1024
    ensures var c := Value(ReadValue(p, ClaimOffset(context)));
      var q := AfterRead(p, ClaimOffset(context));
      && (c == 0 <==> forall irq: nat :: !Wants(p, context, irq))
      && (c != 0 ==> First(p, context, c))
      && q == p.(pending := q.pending)
      && (BankDigit(q.pending, j) <==> BankDigit(p.pending, j) && (j != c || c == 0))
  {
    hide BestBelow, Eligible, BitOf, BankDigit, Wants, Number32, Value, Claimed, AfterClaim;
    ClaimIsBest(p, context);
    ClaimClearsOne(p, context, j);
    var c := Claimed(p, context);
    ClaimBound(p, context);
    SmallWord(c);
    EligibleEverywhere(p, context);
    BitNumber(p.pending, j);
    BitNumber(AfterClaim(p, context).pending, j);
    WantsReal(p, context);
  }

  lemma ClaimBound(p: State, context: nat)
    ensures Claimed(p, context) < 1024
  {
    hide Eligible;
    BestInRange(p, context, MAX_IRQS);
  }

  lemma EligibleEverywhere(p: State, context: nat)
    ensures forall irq: nat :: Eligible(p, context, irq) <==> Wants(p, context, irq)
  {
    hide Eligible, Wants;
    forall irq: nat
      ensures Eligible(p, context, irq) <==> Wants(p, context, irq)
    {
      EligibleIs(p, context, irq);
    }
  }

  lemma WantsReal(p: State, context: nat)
    ensures forall irq: nat :: Wants(p, context, irq) ==> 1 <= irq <= 1023
  {
    hide BankDigit;
  }

  /** The line to a context is high exactly when some interrupt wants to be taken there. */
  lemma LineByNumbers(p: State, context: nat)
    requires context < 2
    ensures HasPending(p, context) <==> exists irq: nat :: Wants(p, context, irq)
  {
    hide Eligible, Wants;
    EligibleEverywhere(p, context);
    WantsReal(p, context);
  }

  // ----- The register map -----

  lemma Low3Is(v: bv32)
    ensures Low3(v) == Value(v) % 8
  {
    hide AM.Long, Unsigned;
    ThreeBitsIs(v);
    AM.LowNumbers(AM.Long(v));
    LowThree(AM.Long(v));
    ThreeNumber(v);
  }

  function Three(v: bv32): bv64 { (v & 0x7) as bv64 }

  lemma ThreeBitsIs(v: bv32)
    ensures Three(v) == WordBits.Meet(AM.Long(v), 7)
  {
  }

  lemma ThreeNumber(v: bv32)
    ensures Low3(v) == Unsigned(Three(v))
  {
  }

  lemma LowThreeParts(x: bv64)
    ensures Added(C.ShiftLeft(C.ShiftRight(x, 3), 3), WordBits.Meet(x, 7)) == x && Below(WordBits.Meet(x, 7), 8)
  {
  }

  lemma EightIs()
    ensures Unsigned(8) == 8 && C.Index(3) == 3 && Pow2(3) == 8
  {
  }

  lemma LowThree(x: bv64)
    ensures Unsigned(WordBits.Meet(x, 7)) == Unsigned(x) % 8
  {
    hide Unsigned, Added, WordBits.Meet, Below, C.ShiftLeft, C.ShiftRight, C.Index, Pow2;
    LowThreeParts(x);
    EightIs();
    OrderNumber(WordBits.Meet(x, 7), 8);
    AM.LowPart(x, WordBits.Meet(x, 7), 3);
  }

  /** A write of a pending word, at 0x1000 plus four times the word, clears the digits that are set in the value. */
  lemma PendingWrites(p: State, v: bv32, w: nat, j: nat)
    requires w < 32 && j < 1024
    ensures var q := WriteReg(p, 0x1000 + 4 * w, v);
      && q == p.(pending := q.pending)
      && (BankDigit(q.pending, j) <==> BankDigit(p.pending, j) && !(j / 32 == w && Digit(Value(v), j % 32)))
  {
    hide PlicDevice.Meet, Value, Digit, Holds, Place;
    var q := WriteReg(p, 0x1000 + 4 * w, v);
    PlaceIs(j % 32);
    if j / 32 == w {
      MeetHolds(p.pending[w], !v, Place(j % 32));
      NotHolds(v, Place(j % 32));
      HoldsNumber(p.pending[w], Place(j % 32));
      HoldsNumber(q.pending[w], Place(j % 32));
      HoldsNumber(v, Place(j % 32));
    }
  }

  lemma NotHolds(v: bv32, i: bv5)
    ensures Holds(!v, i) <==> !Holds(v, i)
  {
    hide OneAt, Single;
    OneIsSingle(i);
    NotMasked(v, OneAt(i));
  }

  lemma NotMasked(v: bv32, mask: bv32)
    requires Single(mask)
    ensures Masked(!v, mask) != 0 <==> Masked(v, mask) == 0
  {
  }

  // ----- Configuration over whole runs -----

  /** A register access, or a change of a pending bit from elsewhere. */
  datatype Access = Reading(offset: nat) | Writing(offset: nat, value: bv32) | Raising(irq: nat) | Lowering(irq: nat)

  function After(p: State, a: Access): State {
    match a
    case Reading(o) => AfterRead(p, o)
    case Writing(o, v) => WriteReg(p, o, v)
    case Raising(irq) => SetPending(p, irq)
    case Lowering(irq) => ClearPending(p, irq)
  }

  function AfterAll(xs: seq<Access>): State
    decreases |xs|
  {
    if xs == [] then Reset() else After(AfterAll(xs[..|xs| - 1]), xs[|xs| - 1])
  }

  /** A write at `offset` goes to the register at `register`: to one of the four bytes of a word, or to the exact offset
      of a threshold. */
  predicate Hits(offset: nat, register: nat) {
    if register >= 0x20_0000 then offset == register else offset / 4 * 4 == register
  }

  predicate Sets(a: Access, register: nat) { a.Writing? && Hits(a.offset, register) }

  /** The value last written to the register at `register`, 0 before the first. */
  function LastWritten(xs: seq<Access>, register: nat): bv32
    decreases |xs|
  {
    if xs == [] then 0
    else
      var last := xs[|xs| - 1];
      if Sets(last, register) then last.value else LastWritten(xs[..|xs| - 1], register)
  }

  /** One access leaves the configuration alone except for the one register written. */
  lemma OneAccess(p: State, a: Access, n: nat, w: nat)
    requires n < 1024 && w < 32
    ensures var q := After(p, a);
      && q.priority[n] == (if Sets(a, 4 * n) then Value(a.value) % 8 else p.priority[n])
      && q.enable0[w] == (if Sets(a, 0x2000 + 4 * w) then a.value else p.enable0[w])
      && q.enable1[w] == (if Sets(a, 0x2080 + 4 * w) then a.value else p.enable1[w])
      && q.threshold0 == (if Sets(a, 0x20_0000) then Value(a.value) % 8 else p.threshold0)
      && q.threshold1 == (if Sets(a, 0x20_1000) then Value(a.value) % 8 else p.threshold1)
  {
    hide Low3, PlicDevice.Meet, Value, Claimed, With, Without, Place;
    if a.Writing? {
      Low3Is(a.value);
    }
  }

  /** After any accesses from reset the priority of interrupt n is the value last written at 4n, and the threshold of a
      context the one last written at 0x20_0000 or 0x20_1000, modulo 8; the enable words are those last written from
      0x2000 and 0x2080 on. Nothing else, claims and completions included, changes them. */
  lemma {:induction false} ConfigurationOverRuns(xs: seq<Access>, n: nat, w: nat)
    requires n < 1024 && w < 32
    ensures var p := AfterAll(xs);
      && p.priority[n] == Value(LastWritten(xs, 4 * n)) % 8
      && p.enable0[w] == LastWritten(xs, 0x2000 + 4 * w) && p.enable1[w] == LastWritten(xs, 0x2080 + 4 * w)
      && p.threshold0 == Value(LastWritten(xs, 0x20_0000)) % 8
      && p.threshold1 == Value(LastWritten(xs, 0x20_1000)) % 8
    decreases |xs|
  {
    hide Value, After;
    if xs == [] {
      SmallWord(0);
      ZeroIs();
    } else {
      var before := xs[..|xs| - 1];
      ConfigurationOverRuns(before, n, w);
      OneAccess(AfterAll(before), xs[|xs| - 1], n, w);
    }
  }

  lemma ZeroIs()
    ensures Number32(0) == 0
  {
  }
}
