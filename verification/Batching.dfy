/** Main results on queue notifications: the used ring, what is published, and batching. */
module Batching {
  import opened Words
  import opened Memory
  import opened GuestMemory
  import opened BlockDevice
  import opened RingLaws
  import opened RingProtocol

  /** The 16-bit index `k` after `i`. */
  function Nth(i: nat, k: nat): (r: u16) {
    (i + k) % 0x1_0000
  }

  lemma NthNext(i: nat, k: nat)
    ensures Nth(NextIndex(i), k) == Nth(i, k + 1)
  {
  }

  /** The `n` requests from slot `i` on obey the driver's side of the protocol. */
  ghost predicate DriverOk(m: seq<u8>, q: Queue, i: nat, n: nat)
    requires q.Usable()
  {
    forall k: nat :: k < n ==> SlotOk(m, q, Nth(i, k))
  }

  lemma DriverOkNext(q: Queue, m: seq<u8>, m': seq<u8>, i: nat, n: nat)
    requires q.Usable() && i < 0x1_0000 && n > 0 && DriverOk(m, q, i, n) && FixedKept(q, m, m')
    ensures SlotOk(m, q, i) && DriverOk(m', q, NextIndex(i), n - 1)
  {
    hide SlotOk, FixedKept;
    assert Nth(i, 0) == i;
    forall k: nat | k < n - 1
      ensures SlotOk(m', q, Nth(NextIndex(i), k))
    {
      NthNext(i, k);
      SlotFixed(q, m, m', Nth(i, k + 1));
    }
  }

  lemma FixedKeptTransitive(q: Queue, a: seq<u8>, b: seq<u8>, c: seq<u8>)
    requires q.Usable() && FixedKept(q, a, b) && FixedKept(q, b, c)
    ensures FixedKept(q, a, c)
  {
  }

  /** Serving any number of requests keeps descriptors, available ring and both indices. */
  lemma {:induction false} ServeManyFixed(q: Queue, w: World, capacity: nat, i: nat, n: nat)
    requires q.Usable() && i < 0x1_0000 && DriverOk(w.mem, q, i, n)
    ensures FixedKept(q, w.mem, ServeMany(w, capacity, q, i, n).world.mem)
    decreases n
  {
    hide ServeSlot, SlotOk, FixedKept, DriverOk;
    if n == 0 {
      FixedKeptSelf(q, w.mem);
    } else {
      DriverOkNextSelf(q, w.mem, i, n);
      ServeSlotFixed(q, w, capacity, i);
      var s := ServeSlot(w, capacity, q, i);
      if s.ok {
        DriverOkNext(q, w.mem, s.world.mem, i, n);
        ServeManyFixed(q, s.world, capacity, NextIndex(i), n - 1);
        FixedKeptTransitive(q, w.mem, s.world.mem, ServeMany(s.world, capacity, q, NextIndex(i), n - 1).world.mem);
      }
    }
  }

  lemma FixedKeptSelf(q: Queue, m: seq<u8>)
    requires q.Usable()
    ensures FixedKept(q, m, m)
  {
  }

  lemma DriverOkNextSelf(q: Queue, m: seq<u8>, i: nat, n: nat)
    requires q.Usable() && i < 0x1_0000 && n > 0 && DriverOk(m, q, i, n)
    ensures SlotOk(m, q, i)
  {
    FixedKeptSelf(q, m);
    DriverOkNext(q, m, m, i, n);
  }

  // ----- The used ring -----

  /** Slots `i` and `j` are the same entry of the ring. */
  predicate SameEntry(q: Queue, i: nat, j: nat)
    requires q.Usable()
  {
    i % q.num == j % q.num
  }

  lemma UsedSlotsApart(q: Queue, i: nat, j: nat, x: nat)
    requires q.Usable() && !SameEntry(q, i, j) && InUsedSlot(q, j, x)
    ensures InRing(q, x) && !InUsedSlot(q, i, x)
  {
    hide Queue.UsedOffset;
    ModBelow(i, q.num);
    ModBelow(j, q.num);
  }

  /** Both words, at `d` 0 and 4, of the element of an entry that is not served again stay as they are. */
  lemma {:induction false} ServeManyKeepsElement(q: Queue, w: World, capacity: nat, i: nat, n: nat, j: nat, d: nat)
    requires q.Usable() && i < 0x1_0000 && DriverOk(w.mem, q, i, n) && d <= 4
    requires forall k: nat :: k < n ==> !SameEntry(q, Nth(i, k), j)
    ensures GuestRead(ServeMany(w, capacity, q, i, n).world.mem, q.UsedSlot(j) + d, 4) ==
            GuestRead(w.mem, q.UsedSlot(j) + d, 4)
    decreases n
  {
    hide ServeSlot, SlotOk, DriverOk, GuestRead, SameEntry, Queue.UsedSlot;
    if n > 0 {
      DriverOkNextSelf(q, w.mem, i, n);
      assert Nth(i, 0) == i;
      assert !SameEntry(q, Nth(i, 0), j);
      ServeSlotKeepsElement(q, w, capacity, i, j, d);
      var s := ServeSlot(w, capacity, q, i);
      if s.ok {
        ServeSlotFixed(q, w, capacity, i);
        DriverOkNext(q, w.mem, s.world.mem, i, n);
        forall k: nat | k < n - 1
          ensures !SameEntry(q, Nth(NextIndex(i), k), j)
        {
          NthNext(i, k);
          assert !SameEntry(q, Nth(i, k + 1), j);
        }
        ServeManyKeepsElement(q, s.world, capacity, NextIndex(i), n - 1, j, d);
      }
    }
  }

  lemma ServeSlotKeepsElement(q: Queue, w: World, capacity: nat, i: nat, j: nat, d: nat)
    requires q.Usable() && SlotOk(w.mem, q, i) && !SameEntry(q, i, j) && d <= 4
    ensures GuestRead(ServeSlot(w, capacity, q, i).world.mem, q.UsedSlot(j) + d, 4) ==
            GuestRead(w.mem, q.UsedSlot(j) + d, 4)
  {
    hide ServeSlot, SlotOk, SameEntry, Queue.UsedSlot, FromBytes, InRing;
    var r := ServeSlot(w, capacity, q, i).world.mem;
    ServeSlotSize(w, capacity, q, i);
    var a := q.UsedSlot(j) + d;
    if a >= DRAM_BASE && a - DRAM_BASE + 4 <= |w.mem| {
      forall o | a - DRAM_BASE <= o < a - DRAM_BASE + 4
        ensures w.mem[o] == r[o]
      {
        UsedSlotsApart(q, i, j, o + DRAM_BASE);
        ServeSlotFrame(q, w, capacity, i, o);
      }
      PeekFrame(w.mem, r, a - DRAM_BASE, 4);
    }
  }

  /** Indices less than a ring apart fall into different entries, as the ring divides 2^16. */
  lemma EntriesDiffer(q: Queue, i: nat, k: nat)
    requires q.Usable() && 0x1_0000 % q.num == 0 && 0 < k < q.num && i < 0x1_0000
    ensures !SameEntry(q, Nth(i, k), i)
  {
    var m := 0x1_0000 / q.num;
    ModDivides(i + k, q.num, m);
    ModGap(i, k, q.num);
  }

  lemma ModDivides(x: nat, d: nat, m: nat)
    requires d > 0 && m > 0 && d * m == 0x1_0000
    ensures x % 0x1_0000 % d == x % d
  {
    var q, r := x / 0x1_0000, x % 0x1_0000;
    MulAssoc(d, m, q);
    DivModUnique(x, d, m * q + r / d, r % d);
  }

  lemma ModGap(i: nat, k: nat, d: nat)
    requires 0 < k < d
    ensures (i + k) % d != i % d
  {
    var q, r := i / d, i % d;
    if r + k < d {
      DivModUnique(i + k, d, q, r + k);
    } else {
      DivModUnique(i + k, d, q + 1, r + k - d);
    }
  }

  /** Entry `k` of the used ring names the head that the driver put in entry `k` of the available ring. */
  lemma {:induction false} UsedRingNamesHeads(q: Queue, w: World, capacity: nat, i: nat, n: nat, k: nat)
    requires q.Usable() && i < 0x1_0000 && DriverOk(w.mem, q, i, n)
    requires 0x1_0000 % q.num == 0 && n <= q.num && k < n
    requires ServeMany(w, capacity, q, i, n).ok
    ensures GuestRead(w.mem, q.AvailSlot(Nth(i, k)), 2).Some?
    ensures GuestRead(ServeMany(w, capacity, q, i, n).world.mem, q.UsedSlot(Nth(i, k)), 4) ==
            GuestRead(w.mem, q.AvailSlot(Nth(i, k)), 2)
    decreases n
  {
    hide ServeSlot, SlotOk, DriverOk, GuestRead, SameEntry, Queue.UsedSlot, Queue.AvailSlot, FixedKept, Nth, NextIndex;
    DriverOkNextSelf(q, w.mem, i, n);
    ServeSlotElement(q, w, capacity, i);
    ServeSlotFixed(q, w, capacity, i);
    var s := ServeSlot(w, capacity, q, i);
    DriverOkNext(q, w.mem, s.world.mem, i, n);
    NextBound(i);
    if k == 0 {
      assert Nth(i, 0) == i by { NthZero(i); }
      forall j: nat | j < n - 1
        ensures !SameEntry(q, Nth(NextIndex(i), j), i)
      {
        NthNext(i, j);
        EntriesDiffer(q, i, j + 1);
      }
      ServeManyKeepsElement(q, s.world, capacity, NextIndex(i), n - 1, i, 0);
    } else {
      NthNext(i, k - 1);
      UsedRingNamesHeads(q, s.world, capacity, NextIndex(i), n - 1, k - 1);
      DriverOkAt(w.mem, q, i, n, k);
      SlotFixed(q, w.mem, s.world.mem, Nth(i, k));
    }
  }

  /** Entry `k` of the used ring gives the length that request `k` reports, as it stands when its turn comes. */
  lemma {:induction false} UsedRingTellsLengths(q: Queue, w: World, capacity: nat, i: nat, n: nat, k: nat)
    requires q.Usable() && i < 0x1_0000 && DriverOk(w.mem, q, i, n)
    requires 0x1_0000 % q.num == 0 && n <= q.num && k < n
    requires ServeMany(w, capacity, q, i, n).ok
    ensures var r := RequestAt(ServeMany(w, capacity, q, i, k).world.mem, q, Nth(i, k));
      && r.Some?
      && GuestRead(ServeMany(w, capacity, q, i, n).world.mem, q.UsedSlot(Nth(i, k)) + 4, 4) ==
         Some(LengthOf(r.value) % 0x1_0000_0000)
    decreases n
  {
    hide ServeSlot, SlotOk, DriverOk, GuestRead, SameEntry, Queue.UsedSlot, FixedKept, Nth, NextIndex, RequestAt,
         LengthOf;
    DriverOkNextSelf(q, w.mem, i, n);
    ServeSlotLength(q, w, capacity, i);
    ServeSlotFixed(q, w, capacity, i);
    var s := ServeSlot(w, capacity, q, i);
    DriverOkNext(q, w.mem, s.world.mem, i, n);
    NextBound(i);
    if k == 0 {
      NthZero(i);
      ServeNone(w, capacity, q, i);
      forall j: nat | j < n - 1
        ensures !SameEntry(q, Nth(NextIndex(i), j), i)
      {
        NthNext(i, j);
        EntriesDiffer(q, i, j + 1);
      }
      ServeManyKeepsElement(q, s.world, capacity, NextIndex(i), n - 1, i, 4);
    } else {
      NthNext(i, k - 1);
      UsedRingTellsLengths(q, s.world, capacity, NextIndex(i), n - 1, k - 1);
    }
  }

  lemma NthZero(i: nat)
    requires i < 0x1_0000
    ensures Nth(i, 0) == i
  {
  }

  lemma NextBound(i: nat)
    ensures NextIndex(i) < 0x1_0000
  {
  }

  lemma DriverOkAt(m: seq<u8>, q: Queue, i: nat, n: nat, k: nat)
    requires q.Usable() && DriverOk(m, q, i, n) && k < n
    ensures SlotOk(m, q, Nth(i, k))
  {
  }

  // ----- Many requests in similar memories -----

  lemma {:induction false} ManySimilar(q: Queue, m: seq<u8>, n: seq<u8>, disk: seq<u8>, capacity: nat, i: nat, cnt: nat)
    requires q.Usable() && i < 0x1_0000 && DriverOk(m, q, i, cnt) && Similar(q, m, n)
    ensures var s, t := ServeMany(World(m, disk), capacity, q, i, cnt), ServeMany(World(n, disk), capacity, q, i, cnt);
      s.ok == t.ok && s.world.disk == t.world.disk && Parallel(q, m, n, s.world.mem, t.world.mem)
    decreases cnt
  {
    hide ServeSlot, SlotOk, DriverOk, Parallel, Similar, NextIndex;
    if cnt == 0 {
      SimilarStart(q, m, n);
    } else {
      DriverOkNextSelf(q, m, i, cnt);
      ServeSlotSimilar(q, m, n, disk, capacity, i);
      var s, t := ServeSlot(World(m, disk), capacity, q, i), ServeSlot(World(n, disk), capacity, q, i);
      if s.ok {
        ServeSlotFixed(q, World(m, disk), capacity, i);
        DriverOkNext(q, m, s.world.mem, i, cnt);
        ParallelSimilar(q, m, n, s.world.mem, t.world.mem);
        NextBound(i);
        ManySimilar(q, s.world.mem, t.world.mem, s.world.disk, capacity, NextIndex(i), cnt - 1);
        var s', t' := ServeMany(s.world, capacity, q, NextIndex(i), cnt - 1),
            ServeMany(t.world, capacity, q, NextIndex(i), cnt - 1);
        ParallelTransitive(q, m, n, s.world.mem, t.world.mem, s'.world.mem, t'.world.mem);
      }
    }
  }

  /** Serving a + b requests is serving a and then b more. */
  lemma {:induction false} ServeManySplit(w: World, capacity: nat, q: Queue, i: nat, a: nat, b: nat)
    requires q.Usable() && i < 0x1_0000
    ensures var s := ServeMany(w, capacity, q, i, a);
      ServeMany(w, capacity, q, i, a + b) == if s.ok then ServeMany(s.world, capacity, q, Nth(i, a), b) else s
    decreases a
  {
    hide ServeSlot, NextIndex, Nth;
    NthZero(i);
    if a > 0 {
      NthNext(i, a - 1);
      NextBound(i);
      var s := ServeSlot(w, capacity, q, i);
      if s.ok {
        ServeManySplit(s.world, capacity, q, NextIndex(i), a - 1, b);
      }
    }
  }

  // ----- The indices -----

  /** The memory after the driver, or the device, stores an index. */
  function Publish(m: seq<u8>, a: nat, v: nat): (r: seq<u8>)
    requires GuestRead(m, a, 2).Some?
  {
    GuestWrite(m, a, 2, v).value
  }

  lemma PublishReads(m: seq<u8>, a: nat, v: u16, b: nat)
    requires GuestRead(m, a, 2).Some? && (b + 2 <= a || a + 2 <= b)
    ensures GuestRead(Publish(m, a, v), a, 2) == Some(v)
    ensures GuestRead(Publish(m, a, v), b, 2) == GuestRead(m, b, 2)
    ensures |Publish(m, a, v)| == |m|
  {
    hide FromBytes, ToBytes, Poke;
    PeekPoke(m, a - DRAM_BASE, 2, v);
    assert Pow256(2) == 0x1_0000;
    if b >= DRAM_BASE {
      PeekFrame(m, Publish(m, a, v), b - DRAM_BASE, 2);
    }
  }

  lemma PublishSimilar(q: Queue, m: seq<u8>, a: nat, v: u16)
    requires q.Usable() && GuestRead(m, a, 2).Some? && (a == q.AvailIdx() || a == q.UsedIdx())
    ensures Similar(q, m, Publish(m, a, v)) && Similar(q, Publish(m, a, v), m)
  {
    hide Queue.AvailIdx, Queue.UsedIdx, ToBytes;
  }

  lemma SimilarTransitive(q: Queue, a: seq<u8>, b: seq<u8>, c: seq<u8>)
    requires q.Usable() && Similar(q, a, b) && Similar(q, b, c)
    ensures Similar(q, a, c)
  {
  }

  lemma SimilarSymmetric(q: Queue, a: seq<u8>, b: seq<u8>)
    requires q.Usable() && Similar(q, a, b)
    ensures Similar(q, b, a)
  {
  }

  lemma SameReadSameBytes(m: seq<u8>, n: seq<u8>, a: nat)
    requires |m| == |n| && GuestRead(m, a, 2).Some? && GuestRead(m, a, 2) == GuestRead(n, a, 2)
    ensures forall o :: a - DRAM_BASE <= o < a - DRAM_BASE + 2 ==> m[o] == n[o]
  {
    var o := a - DRAM_BASE;
    ToFromBytes(m[o..o + 2]);
    ToFromBytes(n[o..o + 2]);
    assert m[o..o + 2] == n[o..o + 2];
    assert m[o] == m[o..o + 2][0] && n[o] == n[o..o + 2][0];
    assert m[o + 1] == m[o..o + 2][1] && n[o + 1] == n[o..o + 2][1];
  }

  /** Similar memories whose indices read alike are equal. */
  lemma SimilarAndIndicesEqual(q: Queue, m: seq<u8>, n: seq<u8>)
    requires q.Usable() && Similar(q, m, n)
    requires GuestRead(m, q.AvailIdx(), 2).Some? && GuestRead(m, q.AvailIdx(), 2) == GuestRead(n, q.AvailIdx(), 2)
    requires GuestRead(m, q.UsedIdx(), 2).Some? && GuestRead(m, q.UsedIdx(), 2) == GuestRead(n, q.UsedIdx(), 2)
    ensures m == n
  {
    SameReadSameBytes(m, n, q.AvailIdx());
    SameReadSameBytes(m, n, q.UsedIdx());
    hide Queue.AvailIdx, Queue.UsedIdx, FromBytes, GuestRead;
    forall o | 0 <= o < |m|
      ensures m[o] == n[o]
    {
      assert IsIndexByte(q, o + DRAM_BASE) || m[o] == n[o];
    }
  }

  lemma IndicesApart(q: Queue)
    requires q.Usable()
    ensures q.AvailIdx() + 2 <= q.UsedIdx() && q.AvailFlags() + 2 <= q.AvailIdx()
  {
    UsedAfterAvail(q);
  }

  lemma OutstandingCount(i: nat, n: nat)
    requires i < 0x1_0000 && n < 0x1_0000
    ensures Outstanding(Nth(i, n), i) == n && (Nth(i, n) == i <==> n == 0)
  {
  }

  // ----- One notification -----

  /** What a notification does, in terms of the requests it serves. */
  lemma ProcessCases(w: World, capacity: nat, q: Queue, used: u16, n: nat)
    requires q.Usable() && n < 0x1_0000
    requires GuestRead(w.mem, q.UsedIdx(), 2) == Some(used) && GuestRead(w.mem, q.AvailIdx(), 2) == Some(Nth(used, n))
    requires GuestRead(w.mem, q.AvailFlags(), 2).Some? && DriverOk(w.mem, q, used, n)
    ensures var s := ServeMany(w, capacity, q, used, n); var r := Process(w, capacity, q);
      var quiet := GuestRead(w.mem, q.AvailFlags(), 2).value % 2 == 1;
      && GuestRead(s.world.mem, q.UsedIdx(), 2) == Some(used)
      && GuestRead(s.world.mem, q.AvailIdx(), 2) == Some(Nth(used, n))
      && r.ok == s.ok
      && r.world.disk == s.world.disk
      && r.world.mem == (if n > 0 && s.ok then Publish(s.world.mem, q.UsedIdx(), Nth(used, n)) else s.world.mem)
      && r.interrupt == (n > 0 && s.ok && !quiet)
  {
    hide GuestRead, ServeMany, Outstanding, Nth, Queue.UsedIdx, Queue.AvailIdx, Queue.AvailFlags, DriverOk, FixedKept,
         Publish, Fixed;
    OutstandingCount(used, n);
    ServeManyFixed(q, w, capacity, used, n);
    var s := ServeMany(w, capacity, q, used, n);
    FixedParts(q, 0, 0);
    ReadFixed(q, w.mem, s.world.mem, q.UsedIdx(), 2);
    ReadFixed(q, w.mem, s.world.mem, q.AvailIdx(), 2);
    PublishDefined(s.world.mem, q.UsedIdx(), Nth(used, n));
    if n == 0 {
      assert s == Step(true, w) by { ServeNone(w, capacity, q, used); }
    }
  }

  lemma ServeNone(w: World, capacity: nat, q: Queue, i: nat)
    requires q.Usable()
    ensures ServeMany(w, capacity, q, i, 0) == Step(true, w)
  {
  }

  lemma PublishDefined(m: seq<u8>, a: nat, v: nat)
    requires GuestRead(m, a, 2).Some?
    ensures GuestWrite(m, a, 2, v) == Some(Publish(m, a, v))
  {
  }

  predicate IsUsedIdx(q: Queue, x: nat)
    requires q.Usable()
  {
    q.UsedIdx() <= x < q.UsedIdx() + 2
  }

  /** Entry `k` of the used ring after the notification: the head and the length of request `k`. */
  ghost predicate Reported(w: World, r: World, capacity: nat, q: Queue, used: u16, k: nat)
    requires q.Usable()
  {
    var head := GuestRead(w.mem, q.AvailSlot(Nth(used, k)), 2);
    var request := RequestAt(ServeMany(w, capacity, q, used, k).world.mem, q, Nth(used, k));
    && head.Some? && request.Some?
    && GuestRead(r.mem, q.UsedSlot(Nth(used, k)), 4) == head
    && GuestRead(r.mem, q.UsedSlot(Nth(used, k)) + 4, 4) == Some(LengthOf(request.value) % 0x1_0000_0000)
  }

  lemma EntryReported(w: World, capacity: nat, q: Queue, used: u16, n: nat, k: nat)
    requires q.Usable() && 0x1_0000 % q.num == 0 && n <= q.num && k < n
    requires DriverOk(w.mem, q, used, n) && ServeMany(w, capacity, q, used, n).ok
    requires GuestRead(ServeMany(w, capacity, q, used, n).world.mem, q.UsedIdx(), 2).Some?
    ensures var s := ServeMany(w, capacity, q, used, n).world;
      Reported(w, World(Publish(s.mem, q.UsedIdx(), Nth(used, n)), s.disk), capacity, q, used, k)
  {
    hide GuestRead, ServeMany, Queue.UsedIdx, Queue.AvailSlot, Queue.UsedSlot, DriverOk, Publish, RequestAt, LengthOf,
         Nth;
    UsedRingNamesHeads(q, w, capacity, used, n, k);
    UsedRingTellsLengths(q, w, capacity, used, n, k);
    var m := ServeMany(w, capacity, q, used, n).world.mem;
    PublishKeepsElement(q, m, Nth(used, n), Nth(used, k), 0);
    PublishKeepsElement(q, m, Nth(used, n), Nth(used, k), 4);
  }

  /** A notification that succeeds publishes the available index as the used index and lists every
      outstanding head once, in order, in the used ring, each with its length; one that fails leaves the used
      index as it was. Either way the descriptors, the available ring and the available index are untouched. */
  lemma ProcessPublishes(w: World, capacity: nat, q: Queue, used: u16, n: nat)
    requires q.Usable() && 0x1_0000 % q.num == 0 && n <= q.num && n < 0x1_0000
    requires GuestRead(w.mem, q.UsedIdx(), 2) == Some(used) && GuestRead(w.mem, q.AvailIdx(), 2) == Some(Nth(used, n))
    requires GuestRead(w.mem, q.AvailFlags(), 2).Some? && DriverOk(w.mem, q, used, n)
    ensures var r := Process(w, capacity, q);
      && GuestRead(r.world.mem, q.UsedIdx(), 2) == Some(if r.ok then Nth(used, n) else used)
      && GuestRead(r.world.mem, q.AvailIdx(), 2) == Some(Nth(used, n))
      && (r.ok ==> forall k: nat :: k < n ==> Reported(w, r.world, capacity, q, used, k))
      && |r.world.mem| == |w.mem|
      && (forall o :: 0 <= o < |w.mem| && IsFixedByte(q, o + DRAM_BASE) && !IsUsedIdx(q, o + DRAM_BASE) ==>
            r.world.mem[o] == w.mem[o])
  {
    ProcessKeepsFixed(w, capacity, q, used, n);
    hide GuestRead, ServeMany, Process, Queue.UsedIdx, Queue.AvailIdx, Queue.AvailFlags, DriverOk, Publish, IsFixedByte,
         Reported;
    ProcessCases(w, capacity, q, used, n);
    var s := ServeMany(w, capacity, q, used, n);
    IndicesApart(q);
    PublishReads(s.world.mem, q.UsedIdx(), Nth(used, n), q.AvailIdx());
    NthZero(used);
    if s.ok {
      forall k: nat | k < n
        ensures Reported(w, Process(w, capacity, q).world, capacity, q, used, k)
      {
        EntryReported(w, capacity, q, used, n, k);
      }
    }
  }

  lemma ProcessKeepsFixed(w: World, capacity: nat, q: Queue, used: u16, n: nat)
    requires q.Usable() && n < 0x1_0000
    requires GuestRead(w.mem, q.UsedIdx(), 2) == Some(used) && GuestRead(w.mem, q.AvailIdx(), 2) == Some(Nth(used, n))
    requires GuestRead(w.mem, q.AvailFlags(), 2).Some? && DriverOk(w.mem, q, used, n)
    ensures var r := Process(w, capacity, q);
      && |r.world.mem| == |w.mem|
      && forall o :: 0 <= o < |w.mem| && IsFixedByte(q, o + DRAM_BASE) && !IsUsedIdx(q, o + DRAM_BASE) ==>
           r.world.mem[o] == w.mem[o]
  {
    hide ServeMany, Process, Queue.UsedIdx, Queue.AvailIdx, Queue.AvailFlags, DriverOk, FromBytes, ToBytes;
    ProcessCases(w, capacity, q, used, n);
    ServeManyFixed(q, w, capacity, used, n);
  }

  lemma PublishKeepsElement(q: Queue, m: seq<u8>, v: u16, j: nat, d: nat)
    requires q.Usable() && GuestRead(m, q.UsedIdx(), 2).Some? && d <= 4
    ensures GuestRead(Publish(m, q.UsedIdx(), v), q.UsedSlot(j) + d, 4) == GuestRead(m, q.UsedSlot(j) + d, 4)
  {
    hide Queue.UsedOffset, FromBytes, ToBytes, Poke;
    if q.UsedSlot(j) + d >= DRAM_BASE {
      PeekFrame(m, Publish(m, q.UsedIdx(), v), q.UsedSlot(j) + d - DRAM_BASE, 4);
    }
  }

  // ----- Batching -----

  /** The driver makes requests available up to index `v`. */
  function Avail(w: World, q: Queue, v: u16): World
    requires q.Usable() && GuestRead(w.mem, q.AvailIdx(), 2).Some?
  {
    World(Publish(w.mem, q.AvailIdx(), v), w.disk)
  }

  lemma DriverOkSimilar(q: Queue, m: seq<u8>, n: seq<u8>, i: nat, cnt: nat)
    requires q.Usable() && DriverOk(m, q, i, cnt) && Similar(q, m, n)
    ensures DriverOk(n, q, i, cnt)
  {
    hide SlotOk, Similar;
    forall k: nat | k < cnt
      ensures SlotOk(n, q, Nth(i, k))
    {
      ServeSlotSimilar(q, m, n, [], 0, Nth(i, k));
    }
  }

  /** The first `n` of DriverOk, and the rest after them. */
  lemma DriverOkSplit(q: Queue, m: seq<u8>, m': seq<u8>, i: nat, n: nat, k: nat)
    requires q.Usable() && DriverOk(m, q, i, n + k) && FixedKept(q, m, m')
    ensures DriverOk(m, q, i, n) && DriverOk(m', q, Nth(i, n), k)
  {
    hide SlotOk, FixedKept;
    forall j: nat | j < k
      ensures SlotOk(m', q, Nth(Nth(i, n), j))
    {
      NthNth(i, n, j);
      SlotFixed(q, m, m', Nth(i, n + j));
    }
  }

  lemma NthNth(i: nat, n: nat, j: nat)
    ensures Nth(Nth(i, n), j) == Nth(i, n + j)
  {
  }

  /** The ready state: the used index is `used` and the ring registers are readable. */
  ghost predicate Ready(w: World, q: Queue, used: u16, n: nat)
    requires q.Usable()
  {
    && GuestRead(w.mem, q.UsedIdx(), 2) == Some(used)
    && GuestRead(w.mem, q.AvailIdx(), 2).Some?
    && GuestRead(w.mem, q.AvailFlags(), 2).Some?
    && DriverOk(w.mem, q, used, n)
  }

  /** After the driver's update, the notification's hypotheses hold and little has changed. */
  lemma AvailReady(w: World, q: Queue, used: u16, n: nat, v: u16)
    requires q.Usable() && Ready(w, q, used, n)
    ensures Ready(Avail(w, q, v), q, used, n) && Similar(q, w.mem, Avail(w, q, v).mem)
    ensures GuestRead(Avail(w, q, v).mem, q.AvailIdx(), 2) == Some(v)
    ensures GuestRead(Avail(w, q, v).mem, q.AvailFlags(), 2) == GuestRead(w.mem, q.AvailFlags(), 2)
  {
    hide GuestRead, Queue.UsedIdx, Queue.AvailIdx, Queue.AvailFlags, DriverOk, Similar, Publish;
    IndicesApart(q);
    PublishReads(w.mem, q.AvailIdx(), v, q.UsedIdx());
    PublishReads(w.mem, q.AvailIdx(), v, q.AvailFlags());
    PublishSimilar(q, w.mem, q.AvailIdx(), v);
    DriverOkSimilar(q, w.mem, Avail(w, q, v).mem, used, n);
  }

  /** Notifying once for n + k requests, and notifying for n and then for k more. */
  function Once(w: World, capacity: nat, q: Queue, used: u16, n: nat, k: nat): Notified
    requires q.Usable() && GuestRead(w.mem, q.AvailIdx(), 2).Some?
  {
    Process(Avail(w, q, Nth(used, n + k)), capacity, q)
  }

  function First(w: World, capacity: nat, q: Queue, used: u16, n: nat): Notified
    requires q.Usable() && GuestRead(w.mem, q.AvailIdx(), 2).Some?
  {
    Process(Avail(w, q, Nth(used, n)), capacity, q)
  }

  /** Both ways serve the first n requests alike. */
  lemma FirstPart(w: World, capacity: nat, q: Queue, used: u16, n: nat, k: nat)
    requires q.Usable() && n + k < 0x1_0000 && Ready(w, q, used, n + k)
    ensures var s := ServeMany(Avail(w, q, Nth(used, n + k)), capacity, q, used, n);
      var f := First(w, capacity, q, used, n);
      && f.ok == s.ok
      && GuestRead(s.world.mem, q.UsedIdx(), 2) == Some(used)
      && GuestRead(s.world.mem, q.AvailIdx(), 2) == Some(Nth(used, n + k))
      && GuestRead(s.world.mem, q.AvailFlags(), 2) == GuestRead(w.mem, q.AvailFlags(), 2)
      && DriverOk(s.world.mem, q, Nth(used, n), k)
      && (f.ok ==> f.world.disk == s.world.disk && Similar(q, s.world.mem, f.world.mem))
      && (f.ok ==> GuestRead(f.world.mem, q.UsedIdx(), 2) == Some(Nth(used, n)))
      && (f.ok ==> GuestRead(f.world.mem, q.AvailIdx(), 2) == Some(Nth(used, n)))
      && f.interrupt == (n > 0 && f.ok && GuestRead(w.mem, q.AvailFlags(), 2).value % 2 == 0)
  {
    hide GuestRead, ServeMany, Process, Queue.UsedIdx, Queue.AvailIdx, Queue.AvailFlags, DriverOk, Publish, Similar,
         Nth, FixedKept, Fixed, Parallel, Avail;
    var a, b := Avail(w, q, Nth(used, n + k)), Avail(w, q, Nth(used, n));
    AvailReady(w, q, used, n + k, Nth(used, n + k));
    AvailReady(w, q, used, n + k, Nth(used, n));
    FixedKeptSelf(q, a.mem);
    DriverOkSplit(q, a.mem, a.mem, used, n, k);
    FixedKeptSelf(q, b.mem);
    DriverOkSplit(q, b.mem, b.mem, used, n, k);
    ServeManyFixed(q, a, capacity, used, n);
    var s := ServeMany(a, capacity, q, used, n);
    DriverOkSplit(q, a.mem, s.world.mem, used, n, k);
    FixedParts(q, 0, 0);
    ReadFixed(q, a.mem, s.world.mem, q.UsedIdx(), 2);
    ReadFixed(q, a.mem, s.world.mem, q.AvailIdx(), 2);
    ReadFixed(q, a.mem, s.world.mem, q.AvailFlags(), 2);
    SimilarSymmetric(q, w.mem, a.mem);
    SimilarTransitive(q, a.mem, w.mem, b.mem);
    AvailDisk(w, q, Nth(used, n + k));
    AvailDisk(w, q, Nth(used, n));
    ManySimilar(q, a.mem, b.mem, w.disk, capacity, used, n);
    ProcessCases(b, capacity, q, used, n);
    var t := ServeMany(b, capacity, q, used, n);
    ParallelSimilar(q, a.mem, b.mem, s.world.mem, t.world.mem);
    IndicesApart(q);
    NthZero(used);
    PublishReads(t.world.mem, q.UsedIdx(), Nth(used, n), q.AvailIdx());
    PublishSimilar(q, t.world.mem, q.UsedIdx(), Nth(used, n));
    SimilarTransitive(q, s.world.mem, t.world.mem, Publish(t.world.mem, q.UsedIdx(), Nth(used, n)));
  }

  lemma AvailDisk(w: World, q: Queue, v: u16)
    requires q.Usable() && GuestRead(w.mem, q.AvailIdx(), 2).Some?
    ensures Avail(w, q, v) == World(Avail(w, q, v).mem, w.disk)
  {
  }

  /** The memory after a run of requests, with the used index published if there were any. */
  function Closed(m: seq<u8>, q: Queue, v: u16, some: bool): seq<u8>
    requires q.Usable() && GuestRead(m, q.UsedIdx(), 2).Some?
  {
    if some then Publish(m, q.UsedIdx(), v) else m
  }

  /** Similar memories with the same available index are equal once both have published `v`. */
  lemma ClosedEqual(q: Queue, m: seq<u8>, n: seq<u8>, v: u16, some: bool, some': bool)
    requires q.Usable() && Similar(q, m, n)
    requires GuestRead(m, q.AvailIdx(), 2) == GuestRead(n, q.AvailIdx(), 2) && GuestRead(m, q.AvailIdx(), 2).Some?
    requires GuestRead(m, q.UsedIdx(), 2).Some? && GuestRead(n, q.UsedIdx(), 2).Some?
    requires !some ==> GuestRead(m, q.UsedIdx(), 2) == Some(v)
    requires !some' ==> GuestRead(n, q.UsedIdx(), 2) == Some(v)
    ensures Closed(m, q, v, some) == Closed(n, q, v, some')
  {
    hide GuestRead, Queue.UsedIdx, Queue.AvailIdx, Publish, Similar;
    IndicesApart(q);
    PublishReads(m, q.UsedIdx(), v, q.AvailIdx());
    PublishReads(n, q.UsedIdx(), v, q.AvailIdx());
    PublishSimilar(q, m, q.UsedIdx(), v);
    PublishSimilar(q, n, q.UsedIdx(), v);
    var m', n' := Closed(m, q, v, some), Closed(n, q, v, some');
    ClosedSimilar(q, m, v, some);
    ClosedSimilar(q, n, v, some');
    SimilarTransitive(q, m', m, n);
    SimilarTransitive(q, m', n, n');
    SimilarAndIndicesEqual(q, m', n');
  }

  lemma ClosedSimilar(q: Queue, m: seq<u8>, v: u16, some: bool)
    requires q.Usable() && GuestRead(m, q.UsedIdx(), 2).Some?
    ensures Similar(q, m, Closed(m, q, v, some)) && Similar(q, Closed(m, q, v, some), m)
  {
    hide GuestRead, Queue.UsedIdx, Queue.AvailIdx, Publish;
    PublishSimilar(q, m, q.UsedIdx(), v);
  }

  /** After equal first parts, the rest of the single run and the second notification agree. */
  lemma SecondPart(w: World, capacity: nat, q: Queue, used: u16, n: nat, k: nat)
    requires q.Usable() && n + k < 0x1_0000 && Ready(w, q, used, n + k)
    requires First(w, capacity, q, used, n).ok
    ensures var one := Once(w, capacity, q, used, n, k);
      var first := First(w, capacity, q, used, n);
      && GuestRead(first.world.mem, q.AvailIdx(), 2).Some?
      && var second := Process(Avail(first.world, q, Nth(used, n + k)), capacity, q);
         && one.ok == second.ok
         && one.interrupt == (one.ok && (first.interrupt || second.interrupt))
         && (one.ok ==> one.world == second.world)
  {
    hide GuestRead, ServeMany, Process, Queue.UsedIdx, Queue.AvailIdx, Queue.AvailFlags, DriverOk, Publish, Similar,
         Nth, Avail, Parallel;
    var v, i := Nth(used, n + k), Nth(used, n);
    FirstPart(w, capacity, q, used, n, k);
    AvailReady(w, q, used, n + k, v);
    var a := Avail(w, q, v);
    ProcessCases(a, capacity, q, used, n + k);
    ServeManySplit(a, capacity, q, used, n, k);
    var s := ServeMany(a, capacity, q, used, n).world;
    var f := First(w, capacity, q, used, n).world;
    DriverOkSimilar(q, s.mem, f.mem, i, k);
    SimilarFlags(q, s.mem, f.mem);
    AvailReady(f, q, i, k, v);
    var c := Avail(f, q, v);
    AvailDisk(f, q, v);
    SimilarTransitive(q, s.mem, f.mem, c.mem);
    NthNth(used, n, k);
    ProcessCases(c, capacity, q, i, k);
    ManySimilar(q, s.mem, c.mem, s.disk, capacity, i, k);
    var s2, t2 := ServeMany(s, capacity, q, i, k), ServeMany(c, capacity, q, i, k);
    ParallelSimilar(q, s.mem, c.mem, s2.world.mem, t2.world.mem);
    NthZero(used);
    NthZero(i);
    if s2.ok {
      ClosedEqual(q, s2.world.mem, t2.world.mem, v, n + k > 0, k > 0);
    }
  }

  lemma SimilarFlags(q: Queue, m: seq<u8>, n: seq<u8>)
    requires q.Usable() && Similar(q, m, n)
    ensures GuestRead(m, q.AvailFlags(), 2) == GuestRead(n, q.AvailFlags(), 2)
  {
    hide GuestRead, OffIndex, Queue.AvailFlags, Similar;
    SlotsOffIndex(q, 0, 0);
    ReadSimilar(q, m, n, q.AvailFlags(), 2);
  }

  /** Notification batching does not matter: one notification for n + k requests and two, for n and then
      for the k more, succeed together and end in the same guest memory, used ring and disk, with an
      interrupt raised by one exactly when it is raised by the two. */
  lemma BatchingDoesNotMatter(w: World, capacity: nat, q: Queue, used: u16, n: nat, k: nat)
    requires q.Usable() && n + k < 0x1_0000 && Ready(w, q, used, n + k)
    ensures var one := Once(w, capacity, q, used, n, k);
      var first := First(w, capacity, q, used, n);
      && (!first.ok ==> !one.ok)
      && (first.ok ==>
            && GuestRead(first.world.mem, q.AvailIdx(), 2).Some?
            && var second := Process(Avail(first.world, q, Nth(used, n + k)), capacity, q);
               && one.ok == second.ok
               && one.interrupt == (one.ok && (first.interrupt || second.interrupt))
               && (one.ok ==> one.world == second.world))
  {
    hide GuestRead, ServeMany, Process, Queue.UsedIdx, Queue.AvailIdx, Queue.AvailFlags, DriverOk, Publish, Similar,
         Nth, Avail;
    FirstPart(w, capacity, q, used, n, k);
    AvailReady(w, q, used, n + k, Nth(used, n + k));
    var a := Avail(w, q, Nth(used, n + k));
    ProcessCases(a, capacity, q, used, n + k);
    ServeManySplit(a, capacity, q, used, n, k);
    var s := ServeMany(a, capacity, q, used, n);
    if s.ok {
      SecondPart(w, capacity, q, used, n, k);
    }
  }
}
