/** The interrupt controller: packed pending and enable bits, priorities, thresholds, claims. */
module PlicDevice {
  import opened Words

  const MAX_IRQS := 1024
  const MAX_CONTEXTS := 2

  type Bank = s: seq<bv32> | |s| == 32 witness seq(32, _ => 0)
  type Priorities = s: seq<nat> | |s| == MAX_IRQS witness seq(MAX_IRQS, _ => 0)

  /** The controller as a value. */
  datatype State = State(priority: Priorities, pending: Bank, enable0: Bank, enable1: Bank, threshold0: nat,
      threshold1: nat)

  function EnableOf(p: State, context: nat): Bank {
    if context == 0 then p.enable0 else p.enable1
  }

  function ThresholdOf(p: State, context: nat): nat {
    if context == 0 then p.threshold0 else p.threshold1
  }

  // ----- Bits -----

  function Place(bit: nat): bv5
    requires bit < 32
  {
    bit as bv5
  }

  function OneAt(i: bv5): bv32 {
    (1 as bv32) << i
  }

  function Masked(w: bv32, mask: bv32): bv32 { w & mask }

  predicate Test(w: bv32, mask: bv32) {
    Masked(w, mask) != 0
  }

  predicate Holds(w: bv32, i: bv5) {
    Test(w, OneAt(i))
  }

  function Meet(w: bv32, v: bv32): bv32 { w & v }

  function Erase(w: bv32, mask: bv32): bv32 { w & !mask }

  function Insert(w: bv32, mask: bv32): bv32 { w | mask }

  function Without(w: bv32, i: bv5): bv32 { Erase(w, OneAt(i)) }

  function With(w: bv32, i: bv5): bv32 { Insert(w, OneAt(i)) }

  /** Bit `n` of a bank: bit n mod 32 of word n div 32. */
  predicate BitOf(b: Bank, n: nat)
    requires n < MAX_IRQS
  {
    Holds(b[n / 32], Place(n % 32))
  }

  /** An interrupt that a context would take: a real one, pending, enabled, above the threshold. */
  predicate Eligible(p: State, context: nat, irq: nat) {
    && 0 < irq < MAX_IRQS
    && BitOf(p.pending, irq)
    && BitOf(EnableOf(p, context), irq)
    && p.priority[irq] > ThresholdOf(p, context)
  }

  /** The best choice among the interrupts below `n`, with its priority; 0 for none. */
  datatype Choice = Choice(irq: nat, priority: nat)

  function Better(p: State, context: nat, best: Choice, irq: nat): Choice {
    if Eligible(p, context, irq) && p.priority[irq] > best.priority then Choice(irq, p.priority[irq]) else best
  }

  function BestBelow(p: State, context: nat, n: nat): Choice {
    if n == 0 then Choice(0, 0) else Better(p, context, BestBelow(p, context, n - 1), n - 1)
  }

  function SetPending(p: State, irq: nat): State {
    if 0 < irq < MAX_IRQS then p.(pending := p.pending[irq / 32 := With(p.pending[irq / 32], Place(irq % 32))]) else p
  }

  function ClearPending(p: State, irq: nat): State {
    if 0 < irq < MAX_IRQS
    then p.(pending := p.pending[irq / 32 := Without(p.pending[irq / 32], Place(irq % 32))])
    else p
  }

  /** Some interrupt would be taken by the context. */
  predicate HasPending(p: State, context: nat) {
    context < MAX_CONTEXTS && exists irq :: 0 < irq < MAX_IRQS && Eligible(p, context, irq)
  }

  function Claimed(p: State, context: nat): nat {
    if context < MAX_CONTEXTS then BestBelow(p, context, MAX_IRQS).irq else 0
  }

  function AfterClaim(p: State, context: nat): State {
    ClearPending(p, Claimed(p, context))
  }

  /** A register write; the offset is from the start of the controller's window. */
  function WriteReg(p: State, offset: nat, value: bv32): State {
    if offset < 0x1000 then p.(priority := p.priority[offset / 4 := Low3(value)])
    else if 0x1000 <= offset < 0x1080 then
      var w := (offset - 0x1000) / 4;
      p.(pending := p.pending[w := Meet(p.pending[w], !value)])
    else if 0x2000 <= offset < 0x2080 then p.(enable0 := p.enable0[(offset - 0x2000) / 4 := value])
    else if 0x2080 <= offset < 0x2100 then p.(enable1 := p.enable1[(offset - 0x2080) / 4 := value])
    else if offset == 0x20_0000 then p.(threshold0 := Low3(value))
    else if offset == 0x20_1000 then p.(threshold1 := Low3(value))
    else p
  }

  function Low3(v: bv32): nat {
    (v & 0x7) as int
  }

  // ----- Facts about single bits -----

  predicate Single(mask: bv32) {
    mask != 0 && mask & (mask - 1) == 0
  }

  lemma OneIsSingle(i: bv5)
    ensures Single(OneAt(i))
  {
  }

  lemma MaskDistributes(w: bv32, v: bv32, mask: bv32)
    requires mask != 0 && mask & (mask - 1) == 0
    ensures (w & v) & mask != 0 <==> w & mask != 0 && v & mask != 0
  {
  }

  lemma MaskedMeet(w: bv32, v: bv32, mask: bv32)
    requires Single(mask)
    ensures Test(Meet(w, v), mask) <==> Test(w, mask) && Test(v, mask)
  {
    MaskDistributes(w, v, mask);
  }

  lemma MeetHolds(w: bv32, v: bv32, i: bv5)
    ensures Holds(Meet(w, v), i) <==> Holds(w, i) && Holds(v, i)
  {
    hide OneAt, Single, Test, Meet;
    OneIsSingle(i);
    MaskedMeet(w, v, OneAt(i));
  }

  lemma NothingHolds(i: bv5)
    ensures !Holds(0, i)
  {
  }

  // ----- The device -----

  class Plic {
    const priority: array<nat>
    const pending: array<bv32>
    const enable0: array<bv32>
    const enable1: array<bv32>
    const thresholds: array<nat>

    ghost predicate Valid() {
      && priority.Length == MAX_IRQS && thresholds.Length == MAX_CONTEXTS
      && pending.Length == 32 && enable0.Length == 32 && enable1.Length == 32
      && pending != enable0 && pending != enable1 && enable0 != enable1 && priority != thresholds
    }

    ghost function Footprint(): set<object> {
      {priority, pending, enable0, enable1, thresholds}
    }

    ghost function Value(): State
      requires Valid()
      reads Footprint()
    {
      State(priority[..], pending[..], enable0[..], enable1[..], thresholds[0], thresholds[1])
    }

    constructor ()
      ensures Valid() && fresh(Footprint())
      ensures Value() == Reset()
    {
      priority := new nat[MAX_IRQS](_ => 0);
      pending := new bv32[32](_ => 0);
      enable0 := new bv32[32](_ => 0);
      enable1 := new bv32[32](_ => 0);
      thresholds := new nat[MAX_CONTEXTS](_ => 0);
    }

    method ActiveWord(context: nat, word: nat) returns (active: bv32)
      requires Valid() && context < MAX_CONTEXTS && word < 32
      ensures active == Meet(Value().pending[word], EnableOf(Value(), context)[word])
    {
      var enabled := if context == 0 then enable0[word] else enable1[word];
      active := Meet(pending[word], enabled);
    }

    /** Looks at every active bit for one above the threshold. */
    method HasPendingInterrupt(context: nat) returns (found: bool)
      requires Valid()
      ensures found == HasPending(Value(), context)
    {
      if context >= MAX_CONTEXTS {
        return false;
      }
      hide BestBelow, Eligible;
      found := AnyWordHasPending(context);
      BestExists(Value(), context, MAX_IRQS);
    }

    method AnyWordHasPending(context: nat) returns (found: bool)
      requires Valid() && context < MAX_CONTEXTS
      ensures found <==> BestBelow(Value(), context, MAX_IRQS).irq != 0
    {
      hide BestBelow, Eligible, Meet;
      NoneBelow(Value(), context);
      for word := 0 to 32
        invariant BestBelow(Value(), context, 32 * word).irq == 0
      {
        var active := ActiveWord(context, word);
        if active == 0 {
          IdleWord(Value(), context, word, 32);
          continue;
        }
        found := WordHasPending(context, word, active);
        if found {
          ChoiceStays(Value(), context, 32 * word + 32, MAX_IRQS);
          return true;
        }
      }
      return false;
    }

    method WordHasPending(context: nat, word: nat, active: bv32) returns (found: bool)
      requires Valid() && context < MAX_CONTEXTS && word < 32
      requires active == Meet(Value().pending[word], EnableOf(Value(), context)[word])
      requires BestBelow(Value(), context, 32 * word).irq == 0
      ensures found <==> BestBelow(Value(), context, 32 * word + 32).irq != 0
    {
      hide Holds, Meet, Place, BestBelow, Eligible;
      var threshold := thresholds[context];
      for bit := 0 to 32
        invariant BestBelow(Value(), context, 32 * word + bit).irq == 0
      {
        var irq := 32 * word + bit;
        EligibleBit(Value(), context, word, bit);
        NoChoice(Value(), context, irq);
        if Holds(active, Place(bit)) && irq != 0 && priority[irq] > threshold {
          ChoiceStays(Value(), context, irq + 1, 32 * word + 32);
          return true;
        }
      }
      return false;
    }

    /** Searches every active bit for the highest priority above the threshold and clears the one found. */
    method ClaimInterrupt(context: nat) returns (best: nat)
      requires Valid()
      modifies pending
      ensures best == Claimed(old(Value()), context) && Value() == AfterClaim(old(Value()), context)
    {
      if context >= MAX_CONTEXTS {
        return 0;
      }
      best := FindBest(context);
      BestInRange(Value(), context, MAX_IRQS);
      if best > 0 {
        ClearPendingBit(best);
      }
    }

    method FindBest(context: nat) returns (best: nat)
      requires Valid() && context < MAX_CONTEXTS
      ensures best == BestBelow(Value(), context, MAX_IRQS).irq
    {
      hide Meet, BestBelow, Eligible;
      NoneBelow(Value(), context);
      var choice := Choice(0, 0);
      for word := 0 to 32
        invariant choice == BestBelow(Value(), context, 32 * word)
      {
        var active := ActiveWord(context, word);
        if active == 0 {
          IdleWord(Value(), context, word, 32);
          continue;
        }
        choice := BestOfWord(context, word, active, choice);
      }
      best := choice.irq;
    }

    method BestOfWord(context: nat, word: nat, active: bv32, before: Choice) returns (choice: Choice)
      requires Valid() && context < MAX_CONTEXTS && word < 32
      requires active == Meet(Value().pending[word], EnableOf(Value(), context)[word])
      requires before == BestBelow(Value(), context, 32 * word)
      ensures choice == BestBelow(Value(), context, 32 * word + 32)
    {
      hide Holds, Meet, Place, BestBelow, Eligible;
      var threshold := thresholds[context];
      choice := before;
      for bit := 0 to 32
        invariant choice == BestBelow(Value(), context, 32 * word + bit)
      {
        var irq := 32 * word + bit;
        EligibleBit(Value(), context, word, bit);
        NextChoice(Value(), context, irq);
        if Holds(active, Place(bit)) && irq != 0 && priority[irq] > threshold && priority[irq] > choice.priority {
          choice := Choice(irq, priority[irq]);
        }
      }
    }

    method SetPendingBit(irq: nat)
      requires Valid()
      modifies pending
      ensures Value() == SetPending(old(Value()), irq)
    {
      hide Place, With;
      if 0 < irq < MAX_IRQS {
        pending[irq / 32] := With(pending[irq / 32], Place(irq % 32));
        assert pending[..] == old(pending[..])[irq / 32 := With(old(pending[irq / 32]), Place(irq % 32))];
      }
    }

    method ClearPendingBit(irq: nat)
      requires Valid()
      modifies pending
      ensures Value() == ClearPending(old(Value()), irq)
    {
      hide Place, Without;
      if 0 < irq < MAX_IRQS {
        pending[irq / 32] := Without(pending[irq / 32], Place(irq % 32));
        assert pending[..] == old(pending[..])[irq / 32 := Without(old(pending[irq / 32]), Place(irq % 32))];
      }
    }

    method Write32(offset: nat, value: bv32)
      requires Valid()
      modifies Footprint()
      ensures Value() == WriteReg(old(Value()), offset, value)
    {
      hide Low3, Meet;
      if offset < 0x1000 {
        priority[offset / 4] := Low3(value);
        assert priority[..] == old(priority[..])[offset / 4 := Low3(value)];
      } else if 0x1000 <= offset < 0x1080 {
        var w := (offset - 0x1000) / 4;
        pending[w] := Meet(pending[w], !value);
        assert pending[..] == old(pending[..])[w := Meet(old(pending[w]), !value)];
      } else if 0x2000 <= offset < 0x2080 {
        enable0[(offset - 0x2000) / 4] := value;
        assert enable0[..] == old(enable0[..])[(offset - 0x2000) / 4 := value];
      } else if 0x2080 <= offset < 0x2100 {
        enable1[(offset - 0x2080) / 4] := value;
        assert enable1[..] == old(enable1[..])[(offset - 0x2080) / 4 := value];
      } else if offset == 0x20_0000 {
        thresholds[0] := Low3(value);
      } else if offset == 0x20_1000 {
        thresholds[1] := Low3(value);
      }
    }

    /** Reading a claim register claims; the other registers only show their contents. */
    method Read32(offset: nat) returns (value: bv32)
      requires Valid()
      modifies pending
      ensures value == ReadValue(old(Value()), offset) && Value() == AfterRead(old(Value()), offset)
    {
      hide BestBelow, Number32, ClearPending;
      if offset < 0x1000 {
        value := Number32(priority[offset / 4]);
      } else if 0x1000 <= offset < 0x1080 {
        value := pending[(offset - 0x1000) / 4];
      } else if 0x2000 <= offset < 0x2080 {
        value := enable0[(offset - 0x2000) / 4];
      } else if 0x2080 <= offset < 0x2100 {
        value := enable1[(offset - 0x2080) / 4];
      } else if offset == 0x20_0000 {
        value := Number32(thresholds[0]);
      } else if offset == 0x20_0004 {
        var irq := ClaimInterrupt(0);
        value := Number32(irq);
      } else if offset == 0x20_1000 {
        value := Number32(thresholds[1]);
      } else if offset == 0x20_1004 {
        var irq := ClaimInterrupt(1);
        value := Number32(irq);
      } else {
        value := 0;
      }
    }
  }

  function Reset(): State {
    State(seq(MAX_IRQS, _ => 0), seq(32, _ => 0), seq(32, _ => 0), seq(32, _ => 0), 0, 0)
  }

  function Number32(n: nat): bv32 {
    (n % 0x1_0000_0000) as bv32
  }

  function ReadValue(p: State, offset: nat): bv32 {
    if offset < 0x1000 then Number32(p.priority[offset / 4])
    else if 0x1000 <= offset < 0x1080 then p.pending[(offset - 0x1000) / 4]
    else if 0x2000 <= offset < 0x2080 then p.enable0[(offset - 0x2000) / 4]
    else if 0x2080 <= offset < 0x2100 then p.enable1[(offset - 0x2080) / 4]
    else if offset == 0x20_0000 then Number32(p.threshold0)
    else if offset == 0x20_0004 then Number32(Claimed(p, 0))
    else if offset == 0x20_1000 then Number32(p.threshold1)
    else if offset == 0x20_1004 then Number32(Claimed(p, 1))
    else 0
  }

  function AfterRead(p: State, offset: nat): State {
    if offset == 0x20_0004 then AfterClaim(p, 0) else if offset == 0x20_1004 then AfterClaim(p, 1) else p
  }

  // ----- What the searches rely on -----

  lemma WordAndBit(word: nat, bit: nat)
    requires word < 32 && bit < 32
    ensures (32 * word + bit) / 32 == word && (32 * word + bit) % 32 == bit && 32 * word + bit < MAX_IRQS
  {
  }

  lemma {:induction false} BestInRange(p: State, context: nat, n: nat)
    requires n <= MAX_IRQS
    ensures var b := BestBelow(p, context, n);
      (b.irq == 0 <==> b.priority == 0) &&
          (b.irq != 0 ==> b.irq < n && Eligible(p, context, b.irq) && b.priority == p.priority[b.irq])
  {
    hide BitOf;
    if n > 0 {
      BestInRange(p, context, n - 1);
    }
  }

  lemma EligibleBit(p: State, context: nat, word: nat, bit: nat)
    requires context < MAX_CONTEXTS && word < 32 && bit < 32
    ensures var irq := 32 * word + bit;
      && irq < MAX_IRQS
      && (Eligible(p, context, irq)
          <==> irq != 0 && Holds(Meet(p.pending[word], EnableOf(p, context)[word]), Place(bit))
               && p.priority[irq] > ThresholdOf(p, context))
  {
    hide Holds, Meet, Place;
    WordAndBit(word, bit);
    MeetHolds(p.pending[word], EnableOf(p, context)[word], Place(bit));
  }

  lemma NoneBelow(p: State, context: nat)
    ensures BestBelow(p, context, 0) == Choice(0, 0)
  {
  }

  lemma NextChoice(p: State, context: nat, irq: nat)
    ensures BestBelow(p, context, irq + 1) == Better(p, context, BestBelow(p, context, irq), irq)
  {
    hide Eligible;
  }

  /** A word without active bits offers nothing. */
  lemma {:induction false} IdleWord(p: State, context: nat, word: nat, bits: nat)
    requires context < MAX_CONTEXTS && word < 32 && bits <= 32
    requires Meet(p.pending[word], EnableOf(p, context)[word]) == 0
    ensures BestBelow(p, context, 32 * word + bits) == BestBelow(p, context, 32 * word)
    decreases bits
  {
    hide Holds, Meet, Place, Eligible, BestBelow;
    if bits > 0 {
      IdleWord(p, context, word, bits - 1);
      EligibleBit(p, context, word, bits - 1);
      NothingHolds(Place(bits - 1));
      NextChoice(p, context, 32 * word + (bits - 1));
    }
  }

  lemma NoChoice(p: State, context: nat, irq: nat)
    requires irq < MAX_IRQS && BestBelow(p, context, irq).irq == 0
    ensures BestBelow(p, context, irq + 1).irq != 0 <==> Eligible(p, context, irq)
  {
    hide Eligible;
    BestInRange(p, context, irq);
    EligibleReal(p, context, irq);
  }

  lemma EligibleReal(p: State, context: nat, irq: nat)
    ensures Eligible(p, context, irq) ==> 0 < irq < MAX_IRQS && p.priority[irq] > 0
  {
  }

  lemma {:induction false} ChoiceStays(p: State, context: nat, m: nat, n: nat)
    requires m <= n && BestBelow(p, context, m).irq != 0
    ensures BestBelow(p, context, n).irq != 0
    decreases n
  {
    hide BitOf;
    if m < n {
      ChoiceStays(p, context, m, n - 1);
    }
  }

  lemma EligibleBounds(p: State, context: nat)
    ensures forall irq: nat :: Eligible(p, context, irq) ==> 0 < irq < MAX_IRQS
  {
    hide BitOf;
  }

  /** The search finds something exactly when there is something to find. */
  lemma {:induction false} BestExists(p: State, context: nat, n: nat)
    requires n <= MAX_IRQS
    ensures BestBelow(p, context, n).irq != 0 <==> exists irq :: 0 < irq < n && Eligible(p, context, irq)
  {
    hide Eligible, BestBelow;
    NoneBelow(p, context);
    if n > 0 {
      BestExists(p, context, n - 1);
      EligibleReal(p, context, n - 1);
      if BestBelow(p, context, n - 1).irq == 0 {
        NoChoice(p, context, n - 1);
      } else {
        ChoiceStays(p, context, n - 1, n);
      }
    }
  }
}
