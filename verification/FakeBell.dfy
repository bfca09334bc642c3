/** The fakebell device whose C source is embedded in myirq/README: four registers, a level
    interrupt line and a periodic timer. `Bell` is the device itself; `Regs` is its register
    file as a value, on which whole runs are described.
 */
module FakeBell {
  import opened Word

  const STATUS: nat := 0x00
  const IRQ_ENABLE: nat := 0x04
  const IRQ_STATUS: nat := 0x08
  const IRQ_ACK: nat := 0x0c
  const EVENT_COUNT: nat := 0x10

  datatype Regs = Regs(status: nat, enable: nat, pending: nat, count: nat, line: bool)

  /** What the guest or the timer may do to the device. Reads change nothing. */
  datatype Op = Tick | Write(offset: nat, value: nat, width: nat)

  function Realized(): Regs { Regs(0, 0, 0, 0, false) }

  /** `x & 1`. */
  function Bit0(x: nat): nat { x % 2 }

  function UpdateIrq(r: Regs): Regs {
    r.(line := Bit0(r.enable) == 1 && Bit0(r.pending) == 1)
  }

  function Apply(r: Regs, op: Op): Regs {
    match op
    case Tick =>
      if Bit0(r.pending) == 0 then UpdateIrq(r.(count := U32(r.count + 1), status := 1, pending := 1)) else r
    case Write(offset, value, width) =>
      if width != 4 then r
      else if offset == IRQ_ENABLE then UpdateIrq(r.(enable := Bit0(value)))
      else if offset == IRQ_ACK && Bit0(value) == 1 then UpdateIrq(r.(status := 0, pending := 0))
      else r
  }

  /** The value a read returns. */
  function ReadReg(r: Regs, offset: nat, width: nat): nat {
    if width != 4 then 0
    else if offset == STATUS then r.status
    else if offset == IRQ_ENABLE then r.enable
    else if offset == IRQ_STATUS then r.pending
    else if offset == EVENT_COUNT then r.count
    else 0
  }

  /** The level contract of the device: registers hold single bits, the active bit mirrors the
      pending bit, and the line is high exactly while an enabled event is pending. */
  predicate Level(r: Regs) {
    && r.enable <= 1 && r.pending <= 1
    && r.status == r.pending
    && (r.line <==> r.enable == 1 && r.pending == 1)
  }

  class Bell {
    var status: nat
    var irqEnable: nat
    var irqStatus: nat
    var eventCount: nat
    var line: bool

    function View(): Regs
      reads this
    {
      Regs(status, irqEnable, irqStatus, eventCount, line)
    }

    constructor ()
      ensures View() == Realized() && Level(View())
    {
      status, irqEnable, irqStatus, eventCount, line := 0, 0, 0, 0, false;
    }

    method Update()
      modifies this`line
      ensures View() == UpdateIrq(old(View()))
    {
      if irqEnable % 2 == 1 && irqStatus % 2 == 1 {
        line := true;
      } else {
        line := false;
      }
    }

    method Read(offset: nat, width: nat) returns (val: nat)
      ensures val == ReadReg(View(), offset, width)
      ensures Level(View()) && width == 4 && (offset == STATUS || offset == IRQ_STATUS) ==>
                val == irqStatus && (val == 1 || val == 0)
      ensures offset == IRQ_ACK || width != 4 ==> val == 0
    {
      val := 0;
      if width != 4 { return; }
      if offset == STATUS { val := status; }
      else if offset == IRQ_ENABLE { val := irqEnable; }
      else if offset == IRQ_STATUS { val := irqStatus; }
      else if offset == EVENT_COUNT { val := eventCount; }
    }

    method WriteReg(offset: nat, value: nat, width: nat)
      modifies this
      ensures View() == Apply(old(View()), Op.Write(offset, value, width))
      ensures old(Level(View())) ==> Level(View())
    {
      if width != 4 { return; }
      if offset == IRQ_ENABLE {
        irqEnable := value % 2;
        Update();
      } else if offset == IRQ_ACK {
        if value % 2 == 1 {
          status := 0;
          irqStatus := 0;
          Update();
        }
      }
    }

    method TimerCallback()
      modifies this
      ensures View() == Apply(old(View()), Op.Tick)
      ensures old(Level(View())) ==> Level(View())
    {
      if irqStatus % 2 == 0 {
        eventCount := U32(eventCount + 1);
        status := 1;
        irqStatus := 1;
        Update();
      }
    }
  }

  // ---------------------------------------------------------------- whole runs

  function RunOps(r: Regs, ops: seq<Op>): Regs {
    if ops == [] then r else Apply(RunOps(r, ops[..|ops| - 1]), ops[|ops| - 1])
  }

  /** Ticks that found no event pending and so raised a new one. */
  function Raised(r: Regs, ops: seq<Op>): nat {
    if ops == [] then 0
    else
      Raised(r, ops[..|ops| - 1]) +
      if ops[|ops| - 1].Tick? && RunOps(r, ops[..|ops| - 1]).pending == 0 then 1 else 0
  }

  /** Acknowledgements that found an event pending and so cleared it. */
  function Cleared(r: Regs, ops: seq<Op>): nat {
    if ops == [] then 0
    else
      Cleared(r, ops[..|ops| - 1]) +
      var last := ops[|ops| - 1];
      if last.Write? && last.width == 4 && last.offset == IRQ_ACK && last.value % 2 == 1
         && RunOps(r, ops[..|ops| - 1]).pending == 1 then 1 else 0
  }

  lemma ApplyKeepsLevel(r: Regs, op: Op)
    requires Level(r)
    ensures Level(Apply(r, op))
  {
  }

  /** In every run of ticks and register writes, of any width, offset and value, on a freshly
      realised device: the level contract holds, every event raised is cleared by exactly one
      acknowledgement or is still pending, and the counter counts the events modulo 2^32. */
  lemma {:induction false} EveryEventAckedOnce(ops: seq<Op>)
    ensures Level(RunOps(Realized(), ops))
    ensures Raised(Realized(), ops) == Cleared(Realized(), ops) + RunOps(Realized(), ops).pending
    ensures RunOps(Realized(), ops).count == U32(Raised(Realized(), ops))
  {
    if ops != [] {
      var init := ops[..|ops| - 1];
      EveryEventAckedOnce(init);
      ApplyKeepsLevel(RunOps(Realized(), init), ops[|ops| - 1]);
      U32Step(Raised(Realized(), init));
    }
  }

  /** The low bit of the last 4-byte write to the enable register, 0 if there was none. */
  function LastEnable(ops: seq<Op>): nat {
    if ops == [] then 0
    else
      var last := ops[|ops| - 1];
      if last.Write? && last.width == 4 && last.offset == IRQ_ENABLE then last.value % 2
      else LastEnable(ops[..|ops| - 1])
  }

  /** That is what the guest reads from it after any run, and what gates the line. */
  lemma {:induction false} EnableIsLastWritten(ops: seq<Op>)
    ensures var r := RunOps(Realized(), ops);
            && ReadReg(r, IRQ_ENABLE, 4) == LastEnable(ops)
            && (r.line <==> LastEnable(ops) == 1 && Raised(Realized(), ops) > Cleared(Realized(), ops))
  {
    EveryEventAckedOnce(ops);
    if ops != [] {
      EnableIsLastWritten(ops[..|ops| - 1]);
    }
  }

  /** What the guest reads after any run on a freshly realised device: status and irq-status
      agree and are 1 exactly while an event raised is not yet cleared, the count register is
      the number of events modulo 2^32, the ack register reads zero. */
  lemma {:induction false} ReadsDescribeRun(ops: seq<Op>)
    ensures var r := RunOps(Realized(), ops);
            && ReadReg(r, STATUS, 4) == ReadReg(r, IRQ_STATUS, 4)
            && ReadReg(r, IRQ_STATUS, 4) == Raised(Realized(), ops) - Cleared(Realized(), ops)
            && ReadReg(r, EVENT_COUNT, 4) == U32(Raised(Realized(), ops))
            && ReadReg(r, IRQ_ACK, 4) == 0
  {
    EveryEventAckedOnce(ops);
  }
}
