/** The serial port told by the bits of its registers, the bytes that pass through it and its place on the bus. */
module UartMeaning {
  import opened UartDevice
  import opened PanicWindow
  import SL = SerialLine
  import SI = SerialInterrupt
  import P = PlicDevice
  import PLaws = PlicLaws
  import PM = PlicMeaning

  // ----- Bits and letters -----

  function Bit0(b: bv8): int { (b & 1) as bv1 as int }

  function Bit1(b: bv8): int { ((b >> 1) & 1) as bv1 as int }

  lemma EnableBits(ier: bv8)
    ensures Receiving(ier) <==> Bit0(ier) == 1
    ensures Transmitting(ier) <==> Bit1(ier) == 1
  {
  }

  lemma Letters(b: bv8)
    ensures IsLetter(b) <==> 1 <= b as int <= 127
    ensures LetterOf(b) as int == b as int
  {
  }

  /** The line is high exactly when bit 0 of the enable register is set and a byte is waiting, or bit 1 is set and the
      transmitter has become empty. */
  lemma LineIs(s: State)
    ensures HasPending(s) <==> (Bit0(s.ier) == 1 && |s.input| > 0) || (Bit1(s.ier) == 1 && s.thrPending)
  {
    hide Receiving, Transmitting, Bit0, Bit1;
    EnableBits(s.ier);
  }

  // ----- The panic window -----

  /** How many of `n` letters the window keeps: all of the first 2048, and then between 1025 and 2048 of the last. */
  function Kept(n: nat): nat { if n <= 2048 then n else 1025 + (n - 2049) % 1024 }

  lemma OneMoreKept(n: nat)
    ensures Kept(n + 1) == if Kept(n) + 1 > 2048 then 1025 else Kept(n) + 1
  {
    if n > 2048 {
      var q, r := (n - 2049) / 1024, (n - 2049) % 1024;
      assert n - 2049 == 1024 * q + r;
      if r == 1023 {
        assert n - 2048 == 1024 * (q + 1);
      } else {
        assert n - 2048 == 1024 * q + (r + 1);
      }
    }
  }

  lemma WindowLength(output: string, letter: char)
    ensures |Window(output, letter)| == if |output| + 1 > 2048 then |output| - 1023 else |output| + 1
  {
  }

  /** After any accesses from reset the window holds exactly that many of the last letters transmitted, and the panic
      flag is set exactly when one of the three texts stands somewhere among all of them. */
  lemma {:induction false} WindowOverRuns(xs: seq<Access>)
    ensures var s := AfterAll(Reset(), xs);
      var all := Stream(xs);
      && |s.output| == Kept(|all|) <= |all| && s.output == all[|all| - |s.output|..]
      && (s.panic <==> exists i: nat ::
            Stands("Kernel panic", all, i) || Stands("kernel panic", all, i) || Stands("not syncing", all, i))
    decreases |xs|
  {
    hide Occurs, MentionsPanic, Window, Keyword, Stands, Kept;
    PanicIffInStream(xs);
    StandsIff(Stream(xs));
    KeptOverRuns(xs);
  }

  /** The text stands in `all` from position `i` on. */
  predicate Stands(text: string, all: string, i: nat) { i + |text| <= |all| && all[i..i + |text|] == text }

  lemma OneStands(word: string, all: string)
    ensures Occurs(word, all) <==> exists i: nat :: Stands(word, all, i)
  {
    if Occurs(word, all) {
      var i: nat :| i <= |all| && OccursAt(word, all, i);
      assert Stands(word, all, i);
    }
    if i: nat :| Stands(word, all, i) {
      assert OccursAt(word, all, i);
    }
  }

  lemma StandsIff(all: string)
    ensures MentionsPanic(all) <==> exists i: nat ::
        Stands("Kernel panic", all, i) || Stands("kernel panic", all, i) || Stands("not syncing", all, i)
  {
    hide Occurs, Stands;
    OneStands("Kernel panic", all);
    OneStands("kernel panic", all);
    OneStands("not syncing", all);
  }

  lemma {:induction false} KeptOverRuns(xs: seq<Access>)
    ensures |AfterAll(Reset(), xs).output| == Kept(|Stream(xs)|)
    decreases |xs|
  {
    hide MentionsPanic, Window, Kept, After, Sent;
    if xs == [] {
      KeptNothing();
    } else {
      var before, last := xs[..|xs| - 1], xs[|xs| - 1];
      var s := AfterAll(Reset(), before);
      KeptOverRuns(before);
      OnlyTransmitting(s, last);
      OneMoreKept(|Stream(before)|);
      KeptBound(|Stream(before)|);
      if Sent(last) != "" {
        WindowLength(s.output, Sent(last)[0]);
      }
    }
  }

  lemma KeptNothing()
    ensures Kept(0) == 0
  {
  }

  lemma KeptBound(n: nat)
    ensures Kept(n) <= 2048
  {
  }

  // ----- The port over whole runs, told without its state -----

  /** The bytes that have arrived. */
  function Arrived(xs: seq<Access>): seq<bv8>
    decreases |xs|
  {
    if xs == [] then []
    else
      var last := xs[|xs| - 1];
      Arrived(xs[..|xs| - 1]) + if last.Arriving? then [last.value] else []
  }

  /** How many of them reads of register 0 have taken: each takes one while there is one. */
  function Taken(xs: seq<Access>): (n: nat)
    ensures n <= |Arrived(xs)|
    decreases |xs|
  {
    if xs == [] then 0
    else
      var before := xs[..|xs| - 1];
      Taken(before) + if xs[|xs| - 1] == Reading(0) && Taken(before) < |Arrived(before)| then 1 else 0
  }

  predicate Waiting(xs: seq<Access>) { Taken(xs) < |Arrived(xs)| }

  /** The value last written to register `o`, 0 before the first. */
  function LastWritten(xs: seq<Access>, o: nat): bv8
    decreases |xs|
  {
    if xs == [] then 0
    else
      var last := xs[|xs| - 1];
      if last.Writing? && last.offset == o then last.value else LastWritten(xs[..|xs| - 1], o)
  }

  /** The enable register lets the receive cause, or the transmit cause, through. */
  predicate ReceiveEnabled(xs: seq<Access>) { Bit0(LastWritten(xs, 1)) == 1 }

  predicate TransmitEnabled(xs: seq<Access>) { Bit1(LastWritten(xs, 1)) == 1 }

  /** The transmitter has become empty and nobody has been told: from reset on, after every byte sent and whenever the
      cause is newly enabled, until a read of register 2 finds it enabled and no receive cause before it. */
  predicate Emptied(xs: seq<Access>)
    decreases |xs|
  {
    if xs == [] then true
    else
      var before, last := xs[..|xs| - 1], xs[|xs| - 1];
      if last.Writing? && last.offset == 0 then true
      else if last.Writing? && last.offset == 1 then
        Emptied(before) || (!TransmitEnabled(before) && Bit1(last.value) == 1)
      else if last == Reading(2) then
        Emptied(before) && ((ReceiveEnabled(before) && Waiting(before)) || !TransmitEnabled(before))
      else Emptied(before)
  }

  lemma OneOrZero(b: bv8)
    ensures Bit1(b) == 0 || Bit1(b) == 1
  {
  }

  lemma OneByte(s: State, a: Access)
    ensures After(s, a).input == if a.Arriving? then s.input + [a.value]
                                 else if a == Reading(0) && s.input != [] then s.input[1..] else s.input
  {
    hide Receiving, Transmitting, Window, MentionsPanic, ReadValue;
  }

  lemma ReadKeeps(s: State, o: nat)
    ensures var k := AfterRead(s, o); k.ier == s.ier && k.lcr == s.lcr && k.mcr == s.mcr && k.scr == s.scr
  {
    hide ReadValue;
  }

  lemma WriteSets(s: State, o: nat, v: bv8)
    ensures var k := AfterWrite(s, o, v);
      && k.ier == (if o == 1 then v else s.ier) && k.lcr == (if o == 3 then v else s.lcr)
      && k.mcr == (if o == 4 then v else s.mcr) && k.scr == (if o == 7 then v else s.scr)
  {
    hide Transmitting, Transmit;
    if o == 0 {
      SentKeeps(s, v);
    } else if o == 1 {
    } else if o == 3 {
    } else if o == 4 {
    } else if o == 7 {
    }
  }

  lemma SentKeeps(s: State, v: bv8)
    ensures var k := Transmit(s, v); k.ier == s.ier && k.lcr == s.lcr && k.mcr == s.mcr && k.scr == s.scr
  {
    hide IsLetter, Window, MentionsPanic, LetterOf;
  }

  lemma OneRegister(s: State, a: Access)
    ensures var k := After(s, a);
      && k.ier == (if a.Writing? && a.offset == 1 then a.value else s.ier)
      && k.lcr == (if a.Writing? && a.offset == 3 then a.value else s.lcr)
      && k.mcr == (if a.Writing? && a.offset == 4 then a.value else s.mcr)
      && k.scr == (if a.Writing? && a.offset == 7 then a.value else s.scr)
  {
    hide AfterRead, AfterWrite;
    match a {
      case Reading(o) => ReadKeeps(s, o);
      case Writing(o, v) => WriteSets(s, o, v);
      case Arriving(_) =>
    }
  }

  lemma OneCause(s: State, a: Access)
    ensures After(s, a).thrPending ==
            if a.Writing? && a.offset == 0 then true
            else if a.Writing? && a.offset == 1 then s.thrPending || (Bit1(s.ier) != 1 && Bit1(a.value) == 1)
            else if a == Reading(2) then s.thrPending && ((Bit0(s.ier) == 1 && s.input != []) || Bit1(s.ier) != 1)
            else s.thrPending
  {
    hide Receiving, Transmitting, Window, MentionsPanic, Bit0, Bit1;
    EnableBits(s.ier);
    if a.Writing? {
      EnableBits(a.value);
    }
  }

  predicate Agrees(s: State, xs: seq<Access>) {
    && s.input == Arrived(xs)[Taken(xs)..]
    && s.ier == LastWritten(xs, 1) && s.lcr == LastWritten(xs, 3) && s.mcr == LastWritten(xs, 4)
    && s.scr == LastWritten(xs, 7)
    && s.thrPending == Emptied(xs)
  }

  lemma DropAppend(bytes: seq<bv8>, b: bv8, n: nat)
    requires n <= |bytes|
    ensures (bytes + [b])[n..] == bytes[n..] + [b]
  {
  }

  lemma AgreesNext(s: State, xs: seq<Access>)
    requires xs != [] && Agrees(s, xs[..|xs| - 1])
    ensures Agrees(After(s, xs[|xs| - 1]), xs)
  {
    hide After, Bit0, Bit1;
    var before, last := xs[..|xs| - 1], xs[|xs| - 1];
    OneByte(s, last);
    OneRegister(s, last);
    OneCause(s, last);
    assert (s.input != []) == Waiting(before);
    if last.Arriving? {
      DropAppend(Arrived(before), last.value, Taken(before));
    }
  }

  lemma {:induction false} Agreement(xs: seq<Access>)
    ensures Agrees(AfterAll(Reset(), xs), xs)
    decreases |xs|
  {
    hide Agrees, After;
    if xs == [] {
      FreshAgrees();
    } else {
      Agreement(xs[..|xs| - 1]);
      AgreesNext(AfterAll(Reset(), xs[..|xs| - 1]), xs);
    }
  }

  lemma FreshAgrees()
    ensures Agrees(Reset(), [])
  {
  }

  /** What the port shows after any accesses from reset. Register 0 shows the first byte not yet taken, so bytes are
      handed out in the order of their arrival and each once; registers 1, 3, 4 and 7 show what was last written; bit 0
      of register 5 tells whether a byte is waiting; register 2 shows 4 for an enabled receive cause, else 2 for an
      enabled transmit cause, else 1; and the line is high exactly when one of the two causes is. */
  lemma PortOverRuns(xs: seq<Access>, o: nat)
    ensures var s := AfterAll(Reset(), xs);
      var receive, transmit := ReceiveEnabled(xs) && Waiting(xs), TransmitEnabled(xs) && Emptied(xs);
      && (HasPending(s) <==> receive || transmit)
      && ReadValue(s, 0) == (if Waiting(xs) then Arrived(xs)[Taken(xs)] else 0)
      && (o == 1 || o == 3 || o == 4 || o == 7 ==> ReadValue(s, o) == LastWritten(xs, o))
      && ReadValue(s, 5) == (if Waiting(xs) then 0x61 else 0x60)
      && ReadValue(s, 2) == (if receive then 4 else if transmit then 2 else 1)
      && (o == 6 || o > 7 ==> ReadValue(s, o) == 0)
  {
    hide Receiving, Transmitting, Bit0, Bit1, AfterAll, Arrived, Taken, LastWritten, Emptied;
    Agreement(xs);
    EnableBits(AfterAll(Reset(), xs).ier);
  }

  // ----- On the bus -----

  /** The port answers at 0x1000_0000 to 0x1000_00FF to every width, and the controller at 0x0C00_0000 to 0x0C5F_FFFF to
      accesses of four bytes: exactly there does an access reach a device, and no address belongs to both. */
  lemma Windows(addr: int, width: nat, value: bv64)
    ensures |SI.ReadEvents(addr, width)| == |SI.WriteEvents(addr, width, value)| <= 1
    ensures SI.ReadEvents(addr, width) != [] <==>
            0x1000_0000 <= addr <= 0x1000_00FF || (0x0C00_0000 <= addr <= 0x0C5F_FFFF && width == 4)
    ensures 0x1000_0000 <= addr <= 0x1000_00FF ==>
        && SI.ReadEvents(addr, width)[0] == SL.UartRead(addr - 0x1000_0000)
        && var e := SI.WriteEvents(addr, width, value)[0];
          e.UartWrite? && e.offset == addr - 0x1000_0000 && e.value as bv64 == value & 0xFF
    ensures 0x0C00_0000 <= addr <= 0x0C5F_FFFF && width == 4 ==>
        && SI.ReadEvents(addr, width)[0] == SL.PlicRead(addr - 0x0C00_0000)
        && var e := SI.WriteEvents(addr, width, value)[0];
          e.PlicWrite? && e.offset == addr - 0x0C00_0000 && e.word as bv64 == value & 0xFFFF_FFFF
  {
  }

  /** The port drives digit 10 of the pending bank: after the line is driven the digit tells its level, and the others
      are as before. */
  lemma DrivesTen(p: SL.Pair, j: nat)
    requires j < 1024
    ensures var q := SL.Synced(p);
      && q.uart == p.uart && q.plic == p.plic.(pending := q.plic.pending)
      && (PM.BankDigit(q.plic.pending, j) <==>
            if j == 10 then
              (Bit0(p.uart.ier) == 1 && |p.uart.input| > 0) || (Bit1(p.uart.ier) == 1 && p.uart.thrPending)
            else PM.BankDigit(p.plic.pending, j))
  {
    hide PM.BankDigit, P.BitOf, HasPending, Bit0, Bit1;
    LineIs(p.uart);
    PM.BitNumber(p.plic.pending, j);
    PM.BitNumber(SL.Synced(p).plic.pending, j);
    PLaws.ChangeOne(p.plic, 10, j);
  }
}
