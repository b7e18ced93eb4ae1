/** One step of the machine and runs of steps. */
module Run {
  import opened Words
  import opened Memory
  import opened CsrFile
  import opened BusRouting
  import opened HartState
  import opened Traps
  import opened Standard
  import opened Compressed
  import PT = PageTable

  /** What the surroundings contribute to a step: the interrupt controller's answers, the results of the
      arithmetic that is not modelled, and the timer ticks that follow. */
  datatype Env = Env(external: bool, sExternal: bool, oracle: Oracle, ticks: bv64)

  // ----- Fetching -----

  datatype Fetched = Fetched(result: Result<bv32, PT.Exception>, mem: Phys)

  function Halfword(v: nat): bv32 {
    (v % 0x1_0000) as bv32
  }

  predicate IsShort(lower: bv32) {
    lower & 3 != 3
  }

  function OddPc(pc: bv64): bool {
    pc & 1 != 0
  }

  function AtPageEnd(pc: bv64): bool {
    pc & 0xFFF >= 0xFFE
  }

  function Both(lower: bv32, upper: bv32): bv32 {
    lower | (upper << 16)
  }

  /** The second half of a 32-bit instruction, translated on its own when it lies on the next page. */
  function FetchUpper(h: Hart, pa: u64, lower: bv32): Fetched {
    var t := if AtPageEnd(h.pc) then Locate(h, Plus(h.pc, 2), PT.Instruction)
             else PT.Translated(Ok(WrappingAdd(pa, 2)), h.mem);
    match t.result
    case Err(e) => Fetched(Err(e), t.mem)
    case Ok(a) =>
      match ReadAt(t.mem, a, 2)
      case None => Fetched(Err(PT.InstructionAccessFault), t.mem)
      case Some(v) => Fetched(Ok(Both(lower, Halfword(v))), t.mem)
  }

  function Fetch(h: Hart): Fetched {
    if OddPc(h.pc) then Fetched(Err(PT.InstructionAddressMisaligned), h.mem)
    else
      var t := Locate(h, h.pc, PT.Instruction);
      match t.result
      case Err(e) => Fetched(Err(e), t.mem)
      case Ok(pa) =>
        match ReadAt(t.mem, pa, 2)
        case None => Fetched(Err(PT.InstructionAccessFault), t.mem)
        case Some(v) =>
          if IsShort(Halfword(v)) then Fetched(Ok(Halfword(v)), t.mem)
          else FetchUpper(h.(mem := t.mem), pa, Halfword(v))
  }

  // ----- One step -----

  function Short(i: bv32): bv16 {
    (i & 0xFFFF) as bv16
  }

  function Dispatch(h: Hart, i: bv32, o: Oracle): Outcome {
    if IsShort(i) then ExecuteShort(h, Short(i), o) else Execute(h, i, 4, o)
  }

  function Settle(out: Outcome): Hart {
    match out
    case Next(k) => k
    case Raise(k, t, v) => HandleTrap(k, t, v)
  }

  /** What a step comes to before any instruction runs. */
  datatype Stage = Interrupted(hart: Hart, interrupt: Interrupt) | FetchFault(hart: Hart, fault: PT.Exception) |
      Ready(hart: Hart, word: bv32)

  function Prepare(h: Hart, e: Env): Stage {
    var (k, s) := CheckInterrupt(h, LinesOf(h.clint, e.external, e.sExternal));
    if s.Some? then Interrupted(k, s.value)
    else
      var f := Fetch(k);
      match f.result
      case Err(x) => FetchFault(k.(mem := f.mem), x)
      case Ok(i) => Ready(k.(mem := f.mem), i)
  }

  function Tick(h: Hart, ticks: bv64): Hart {
    h.(clint := h.clint.(mtime := Plus(h.clint.mtime, ticks)))
  }

  /** Interrupt check, fetch, execution, trap handling, and the timer. */
  function Step(h: Hart, e: Env): Hart {
    var k := match Prepare(h, e)
      case Interrupted(k, i) => HandleTrap(k, Intr(i), 0)
      case FetchFault(k, x) => HandleTrap(k, Exc(x), k.pc)
      case Ready(k, i) => Settle(Dispatch(k, i, e.oracle));
    Tick(k, e.ticks)
  }

  function After(h: Hart, es: seq<Env>): Hart
    decreases |es|
  {
    if es == [] then h else Step(After(h, es[..|es| - 1]), es[|es| - 1])
  }
}
