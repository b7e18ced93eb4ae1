/** Laws of arbitration: a claim is the best choice and clears one bit; claims drain in order. */
module PlicLaws {
  import opened Words
  import opened PlicDevice

  // ----- The best choice -----

  /** Higher priority first, then the lower number. */
  predicate Precedes(p: State, a: nat, b: nat)
    requires a < MAX_IRQS && b < MAX_IRQS
  {
    p.priority[a] > p.priority[b] || (p.priority[a] == p.priority[b] && a < b)
  }

  ghost predicate BestAmong(p: State, context: nat, best: nat, n: nat)
    requires n <= MAX_IRQS
  {
    && best < n && Eligible(p, context, best)
    && forall j :: 0 < j < n && Eligible(p, context, j) && j != best ==> Precedes(p, best, j)
  }

  lemma {:induction false} BestIsBest(p: State, context: nat, n: nat)
    requires n <= MAX_IRQS
    ensures var b := BestBelow(p, context, n); b.irq != 0 ==> BestAmong(p, context, b.irq, n)
  {
    hide Eligible, BestBelow;
    NoneBelow(p, context);
    EligibleBounds(p, context);
    if n > 0 {
      BestIsBest(p, context, n - 1);
      NextChoice(p, context, n - 1);
      BestRange(p, context, n - 1);
      BestExists(p, context, n - 1);
    }
  }

  lemma BestRange(p: State, context: nat, n: nat)
    requires n <= MAX_IRQS
    ensures var b := BestBelow(p, context, n);
      (b.irq == 0 <==> b.priority == 0) && (b.irq != 0 ==> b.irq < n && b.priority == p.priority[b.irq])
  {
    hide Eligible;
    BestInRange(p, context, n);
  }

  /** A claim returns the eligible interrupt that precedes all others, and 0 exactly when there is none. */
  lemma ClaimIsBest(p: State, context: nat)
    ensures var c := Claimed(p, context);
      && (c != 0 <==> HasPending(p, context))
      && (c != 0 ==> c < MAX_IRQS && BestAmong(p, context, c, MAX_IRQS))
  {
    hide Eligible, BestBelow, BestAmong;
    BestExists(p, context, MAX_IRQS);
    BestIsBest(p, context, MAX_IRQS);
    BestRange(p, context, MAX_IRQS);
  }

  // ----- A claim clears one bit -----

  lemma PlaceBack(n: nat)
    requires n < 32
    ensures Place(n) as int == n
  {
  }

  lemma OtherPlace(m: nat, n: nat)
    requires m < 32 && n < 32
    ensures Place(m) == Place(n) <==> m == n
  {
    hide Place;
    PlaceBack(m);
    PlaceBack(n);
  }

  predicate Apart(m: bv32, n: bv32) { m & n == 0 }

  lemma OnesApart(i: bv5, j: bv5)
    requires i != j
    ensures Apart(OneAt(i), OneAt(j))
  {
  }

  lemma MaskAway(w: bv32, m: bv32, n: bv32)
    requires Apart(m, n)
    ensures Masked(Erase(w, m), n) == Masked(w, n)
  {
  }

  lemma MaskIn(w: bv32, m: bv32, n: bv32)
    requires Apart(m, n)
    ensures Masked(Insert(w, m), n) == Masked(w, n)
  {
  }

  lemma EraseSelf(w: bv32, m: bv32)
    requires Single(m)
    ensures !Test(Erase(w, m), m) && Test(Insert(w, m), m)
  {
  }

  lemma OneBitChanges(w: bv32, i: bv5, j: bv5)
    ensures Holds(Without(w, i), j) <==> Holds(w, j) && i != j
    ensures Holds(With(w, i), j) <==> Holds(w, j) || i == j
  {
    hide Masked, Erase, Insert, OneAt, Apart, Single;
    if i == j {
      OneIsSingle(i);
      EraseSelf(w, OneAt(i));
    } else {
      OnesApart(i, j);
      MaskAway(w, OneAt(i), OneAt(j));
      MaskIn(w, OneAt(i), OneAt(j));
    }
  }

  /** Setting or clearing one pending bit changes no other. */
  lemma ChangeOne(p: State, irq: nat, j: nat)
    requires 0 < irq < MAX_IRQS && j < MAX_IRQS
    ensures BitOf(ClearPending(p, irq).pending, j) <==> BitOf(p.pending, j) && j != irq
    ensures BitOf(SetPending(p, irq).pending, j) <==> BitOf(p.pending, j) || j == irq
  {
    hide Holds, Without, With, Place;
    OneBitChanges(p.pending[irq / 32], Place(irq % 32), Place(j % 32));
    OtherPlace(irq % 32, j % 32);
  }

  /** After a claim exactly the claimed interrupt is no longer pending; priorities, thresholds and enables
      are as before. */
  lemma ClaimClearsOne(p: State, context: nat, j: nat)
    requires j < MAX_IRQS
    ensures var q := AfterClaim(p, context);
      && q == p.(pending := q.pending)
      && (BitOf(q.pending, j) <==> BitOf(p.pending, j) && (j != Claimed(p, context) || j == 0))
  {
    hide BitOf, BestBelow;
    ClaimIsBest(p, context);
    if Claimed(p, context) != 0 {
      ChangeOne(p, Claimed(p, context), j);
    }
  }

  lemma EligibleAfterClaim(p: State, context: nat, j: nat)
    ensures Eligible(AfterClaim(p, context), context, j) <==> Eligible(p, context, j) && j != Claimed(p, context)
  {
    if j < MAX_IRQS {
      ClaimClearsOne(p, context, j);
    }
    hide BitOf, BestBelow, Claimed, AfterClaim;
  }

  // ----- Draining -----

  function EligibleSet(p: State, context: nat): set<nat> {
    set irq | 0 < irq < MAX_IRQS && Eligible(p, context, irq)
  }

  lemma SetAfterClaim(p: State, context: nat)
    ensures EligibleSet(AfterClaim(p, context), context) == EligibleSet(p, context) - {Claimed(p, context)}
    ensures Claimed(p, context) != 0 ==> Claimed(p, context) in EligibleSet(p, context)
  {
    hide Eligible, AfterClaim, Claimed;
    forall j
      ensures Eligible(AfterClaim(p, context), context, j) <==> Eligible(p, context, j) && j != Claimed(p, context)
    {
      EligibleAfterClaim(p, context, j);
    }
    ClaimIsBest(p, context);
  }

  /** The interrupts claimed one after the other until a claim returns 0. */
  function Drain(p: State, context: nat): seq<nat>
    requires context < MAX_CONTEXTS
    decreases |EligibleSet(p, context)|
  {
    if Claimed(p, context) == 0 then []
    else
      SetAfterClaim(p, context);
      Shrinks(EligibleSet(p, context), Claimed(p, context));
      [Claimed(p, context)] + Drain(AfterClaim(p, context), context)
  }

  lemma Shrinks(s: set<nat>, x: nat)
    requires x in s
    ensures |s - {x}| < |s|
  {
  }

  function AfterDrain(p: State, context: nat, n: nat): State {
    if n == 0 then p else AfterClaim(AfterDrain(p, context, n - 1), context)
  }

  predicate InOrder(p: State, s: seq<nat>) {
    && (forall i :: 0 <= i < |s| ==> s[i] < MAX_IRQS)
    && forall i, j :: 0 <= i < j < |s| ==> Precedes(p, s[i], s[j])
  }

  /** With nothing new arriving, repeated claims return exactly the eligible interrupts, each once, by
      falling priority and then rising number. */
  lemma {:induction false} DrainInOrder(p: State, context: nat)
    requires context < MAX_CONTEXTS
    ensures InOrder(p, Drain(p, context))
    ensures forall x :: x in Drain(p, context) <==> x in EligibleSet(p, context)
    decreases |EligibleSet(p, context)|
  {
    hide Eligible, Claimed, AfterClaim;
    ClaimIsBest(p, context);
    EligibleBounds(p, context);
    var c := Claimed(p, context);
    if c == 0 {
      assert EligibleSet(p, context) == {};
    } else {
      var q := AfterClaim(p, context);
      SetAfterClaim(p, context);
      Shrinks(EligibleSet(p, context), c);
      DrainInOrder(q, context);
      ClaimClearsOne(p, context, 0);
      HeadFirst(p, q, context, c, Drain(q, context));
    }
  }

  lemma HeadFirst(p: State, q: State, context: nat, c: nat, rest: seq<nat>)
    requires q.priority == p.priority && InOrder(q, rest) && c < MAX_IRQS
    requires BestAmong(p, context, c, MAX_IRQS)
    requires forall x :: x in rest ==> 0 < x < MAX_IRQS && Eligible(p, context, x) && x != c
    ensures InOrder(p, [c] + rest)
  {
    hide Eligible;
    var all := [c] + rest;
    forall i, j | 0 <= i < j < |all| ensures Precedes(p, all[i], all[j]) {
      assert all[j] == rest[j - 1] && rest[j - 1] in rest;
      if i > 0 {
        assert Precedes(q, rest[i - 1], rest[j - 1]);
      }
    }
  }

  /** The drain ends: after that many claims the next one returns 0. */
  lemma {:induction false} DrainEnds(p: State, context: nat)
    requires context < MAX_CONTEXTS
    ensures Claimed(AfterDrain(p, context, |Drain(p, context)|), context) == 0
    decreases |EligibleSet(p, context)|
  {
    hide Eligible, Claimed, AfterClaim;
    if Claimed(p, context) != 0 {
      SetAfterClaim(p, context);
      Shrinks(EligibleSet(p, context), Claimed(p, context));
      DrainEnds(AfterClaim(p, context), context);
      DrainShift(p, context, |Drain(AfterClaim(p, context), context)|);
    }
  }

  lemma {:induction false} DrainShift(p: State, context: nat, n: nat)
    ensures AfterDrain(p, context, n + 1) == AfterDrain(AfterClaim(p, context), context, n)
  {
    hide AfterClaim;
    if n > 0 {
      DrainShift(p, context, n - 1);
    }
  }

  // ----- What every register access keeps -----

  /** Priorities and thresholds are three bits wide. */
  predicate ThreeBits(p: State) {
    && (forall i :: 0 <= i < MAX_IRQS ==> p.priority[i] < 8)
    && p.threshold0 < 8 && p.threshold1 < 8
  }

  lemma Low3Bound(v: bv32)
    ensures Low3(v) < 8
  {
  }

  lemma WriteKeepsThreeBits(p: State, offset: nat, value: bv32)
    requires ThreeBits(p)
    ensures ThreeBits(WriteReg(p, offset, value)) && ThreeBits(AfterRead(p, offset))
  {
    hide Low3, Meet, BestBelow;
    Low3Bound(value);
  }
}
