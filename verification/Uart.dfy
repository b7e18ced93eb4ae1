/** The serial port: registers, the receive queue, the transmit-empty latch and the panic window. */
module UartDevice {

  const RHR := 0
  const THR := 0
  const IER := 1
  const ISR := 2
  const LCR := 3
  const MCR := 4
  const LSR := 5
  const SCR := 7

  /** The port as a value. */
  datatype State = State(
    ier: bv8, lcr: bv8, mcr: bv8, scr: bv8, input: seq<bv8>, output: string, panic: bool, thrPending: bool)

  function Reset(): State {
    State(0, 0, 0, 0, [], "", false, true)
  }

  predicate Receiving(ier: bv8) { ier & 0x01 != 0 }

  predicate Transmitting(ier: bv8) { ier & 0x02 != 0 }

  /** The condition that drives the interrupt line. */
  predicate HasPending(s: State) {
    (Receiving(s.ier) && s.input != []) || (Transmitting(s.ier) && s.thrPending)
  }

  // ----- The panic window -----

  const LIMIT := 2048
  const CUT := 1024

  predicate OccursAt(word: string, text: string, i: nat) {
    i + |word| <= |text| && text[i..i + |word|] == word
  }

  predicate Occurs(word: string, text: string) {
    exists i: nat | i <= |text| :: OccursAt(word, text, i)
  }

  predicate MentionsPanic(text: string) {
    Occurs("Kernel panic", text) || Occurs("kernel panic", text) || Occurs("not syncing", text)
  }

  /** The window after one more letter: cut to its last part once it is over the limit. */
  function Window(output: string, letter: char): string {
    var longer := output + [letter];
    if |longer| > LIMIT then longer[CUT..] else longer
  }

  /** Only non-NUL ASCII bytes enter the window. */
  predicate IsLetter(b: bv8) {
    b & 0x80 == 0 && b != 0
  }

  function LetterOf(b: bv8): char {
    (b as int) as char
  }

  function Transmit(s: State, b: bv8): State {
    if IsLetter(b) then
      var output := Window(s.output, LetterOf(b));
      s.(output := output, panic := s.panic || MentionsPanic(output), thrPending := true)
    else s.(thrPending := true)
  }

  // ----- Register accesses -----

  function ReadValue(s: State, offset: nat): bv8 {
    if offset == RHR then (if s.input != [] then s.input[0] else 0)
    else if offset == IER then s.ier
    else if offset == ISR then
      if s.input != [] && Receiving(s.ier) then 0x04
      else if s.thrPending && Transmitting(s.ier) then 0x02
      else 0x01
    else if offset == LCR then s.lcr
    else if offset == MCR then s.mcr
    else if offset == LSR then (if s.input != [] then 0x61 else 0x60)
    else if offset == SCR then s.scr
    else 0
  }

  function AfterRead(s: State, offset: nat): State {
    if offset == RHR && s.input != [] then s.(input := s.input[1..])
    else if offset == ISR && ReadValue(s, ISR) == 0x02 then s.(thrPending := false)
    else s
  }

  function AfterWrite(s: State, offset: nat, value: bv8): State {
    if offset == THR then Transmit(s, value)
    else if offset == IER then
      s.(ier := value, thrPending := s.thrPending || (!Transmitting(s.ier) && Transmitting(value)))
    else if offset == LCR then s.(lcr := value)
    else if offset == MCR then s.(mcr := value)
    else if offset == SCR then s.(scr := value)
    else s
  }

  class Uart {
    var ier: bv8
    var lcr: bv8
    var mcr: bv8
    var scr: bv8
    var inputBuffer: seq<bv8>
    var outputBuffer: string
    var panicDetected: bool
    var thrPending: bool

    ghost function Value(): State
      reads this
    {
      State(ier, lcr, mcr, scr, inputBuffer, outputBuffer, panicDetected, thrPending)
    }

    constructor ()
      ensures Value() == Reset()
    {
      ier, lcr, mcr, scr := 0, 0, 0, 0;
      inputBuffer, outputBuffer := [], "";
      panicDetected := false;
      thrPending := true;
    }

    method Read8(offset: nat) returns (value: bv8)
      modifies this
      ensures value == ReadValue(old(Value()), offset) && Value() == AfterRead(old(Value()), offset)
    {
      value := 0;
      if offset == RHR {
        if inputBuffer != [] {
          value := inputBuffer[0];
          inputBuffer := inputBuffer[1..];
        }
      } else if offset == IER {
        value := ier;
      } else if offset == ISR {
        var hasInput := inputBuffer != [];
        if hasInput && Receiving(ier) {
          value := 0x04;
        } else if thrPending && Transmitting(ier) {
          thrPending := false;
          value := 0x02;
        } else {
          value := 0x01;
        }
      } else if offset == LCR {
        value := lcr;
      } else if offset == MCR {
        value := mcr;
      } else if offset == LSR {
        value := if inputBuffer != [] then 0x61 else 0x60;
      } else if offset == SCR {
        value := scr;
      }
    }

    method Write8(offset: nat, value: bv8)
      modifies this
      ensures Value() == AfterWrite(old(Value()), offset, value)
    {
      hide MentionsPanic, Window;
      if offset == THR {
        if IsLetter(value) {
          outputBuffer := Window(outputBuffer, LetterOf(value));
          if !panicDetected && MentionsPanic(outputBuffer) {
            panicDetected := true;
          }
        }
        thrPending := true;
      } else if offset == IER {
        var oldIer := ier;
        ier := value;
        if !Transmitting(oldIer) && Transmitting(value) {
          thrPending := true;
        }
      } else if offset == LCR {
        lcr := value;
      } else if offset == MCR {
        mcr := value;
      } else if offset == SCR {
        scr := value;
      }
    }

    method HasPendingInterrupt() returns (pending: bool)
      ensures pending == HasPending(Value())
    {
      var hasInput := inputBuffer != [];
      if Receiving(ier) && hasInput {
        return true;
      }
      if Transmitting(ier) && thrPending {
        return true;
      }
      return false;
    }

    /** The input thread delivers a byte. */
    method Arrive(b: bv8)
      modifies this
      ensures Value() == old(Value()).(input := old(Value()).input + [b])
    {
      inputBuffer := inputBuffer + [b];
    }
  }
}
