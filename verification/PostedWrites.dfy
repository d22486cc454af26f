/** Runs of posted register writes. The PCI bridge of the AE-9 wedges after a burst of
    writes with no read between them, so the driver breaks every burst with a read. The
    model keeps the order of accesses; what the hardware answers to a read is arbitrary. */
module PostedWrites {

  datatype Reg =
    | GCTL | STATESTS | INTCTL | INTSTS | SD_STS(stream: nat)
    | CORBLBASE | CORBUBASE | CORBSIZE | CORBWP | CORBRP | CORBCTL
    | RIRBLBASE | RIRBUBASE | RIRBSIZE | RIRBWP | RIRBCTL | RIRBSTS | RINTCNT
    | DPLBASE | DPUBASE | Offset(off: nat)

  datatype Access = Read(reg: Reg) | Write(reg: Reg)

  function Max(a: nat, b: nat): nat {
    if a < b then b else a
  }

  /** The writes since the last read. */
  function Open(log: seq<Access>): (n: nat)
    ensures n <= |log|
  {
    if log == [] || log[|log| - 1].Read? then 0 else Open(log[..|log| - 1]) + 1
  }

  /** The longest run of writes. */
  function Longest(log: seq<Access>): (n: nat)
    ensures n >= Open(log)
  {
    if log == [] then 0 else Max(Longest(log[..|log| - 1]), Open(log))
  }

  ghost predicate Burst(log: seq<Access>, lo: nat, hi: nat) {
    lo <= hi <= |log| && forall k :: lo <= k < hi ==> log[k].Write?
  }

  lemma {:induction false} OpenIsBurst(log: seq<Access>, lo: nat)
    ensures Burst(log, |log| - Open(log), |log|)
    ensures Burst(log, lo, |log|) ==> |log| - lo <= Open(log)
  {
    if log != [] && log[|log| - 1].Write? {
      var front := log[..|log| - 1];
      OpenIsBurst(front, if lo < |log| then lo else 0);
      assert forall k :: 0 <= k < |front| ==> front[k] == log[k];
    }
  }

  /** What Longest means: no stretch of writes is longer, and one is that long. */
  lemma {:induction false} LongestIsMaximal(log: seq<Access>) returns (at: nat)
    ensures Burst(log, at, at + Longest(log))
    ensures forall lo: nat, hi: nat :: Burst(log, lo, hi) ==> hi - lo <= Longest(log)
  {
    if log == [] {
      at := 0;
    } else {
      var front := log[..|log| - 1];
      at := LongestIsMaximal(front);
      OpenIsBurst(log, 0);
      if Longest(log) > Longest(front) {
        at := |log| - Open(log);
      }
      forall lo: nat, hi: nat | Burst(log, lo, hi) ensures hi - lo <= Longest(log) {
        OpenIsBurst(log, lo);
        assert hi < |log| ==> Burst(front, lo, hi);
      }
    }
  }

  lemma AfterWrite(log: seq<Access>, r: Reg)
    ensures Open(log + [Write(r)]) == Open(log) + 1
    ensures Longest(log + [Write(r)]) == Max(Longest(log), Open(log) + 1)
  {
    assert (log + [Write(r)])[..|log|] == log;
  }

  lemma AfterRead(log: seq<Access>, r: Reg)
    ensures Open(log + [Read(r)]) == 0 && Longest(log + [Read(r)]) == Longest(log)
  {
    assert (log + [Read(r)])[..|log|] == log;
  }

  /** The register window of a device, with the accesses made so far. */
  class Window {
    var log: seq<Access>
    const answer: nat -> nat

    constructor (answer: nat -> nat)
      ensures log == [] && this.answer == answer
    {
      log := [];
      this.answer := answer;
    }

    method WriteReg(r: Reg)
      modifies this
      ensures log == old(log) + [Write(r)]
      ensures Open(log) == old(Open(log)) + 1
      ensures Longest(log) == Max(old(Longest(log)), old(Open(log)) + 1)
    {
      AfterWrite(log, r);
      log := log + [Write(r)];
    }

    method ReadReg(r: Reg) returns (v: nat)
      modifies this
      ensures log == old(log) + [Read(r)]
      ensures Open(log) == 0 && Longest(log) == old(Longest(log))
    {
      AfterRead(log, r);
      v := answer(|log|);
      log := log + [Read(r)];
    }

    /** An update reads the register and writes it back. */
    method Update(r: Reg)
      modifies this
      ensures old(log) <= log
      ensures Open(log) == 1 && Longest(log) == Max(old(Longest(log)), 1)
    {
      hide Open, Longest;
      var _ := ReadReg(r);
      WriteReg(r);
    }

    /** Reading a register until `done` holds of it or `tries` more reads have been made:
        one read at least, and no write. */
    method Poll(r: Reg, done: nat -> bool, tries: nat)
      modifies this
      ensures old(log) <= log
      ensures Open(log) == 0 && Longest(log) == old(Longest(log))
    {
      hide Open, Longest;
      var v := ReadReg(r);
      var left := tries;
      while !done(v) && left > 0
        invariant old(log) <= log && Open(log) == 0 && Longest(log) == old(Longest(log))
      {
        v := ReadReg(r);
        left := left - 1;
      }
    }

    /** A ca0113_mmio_write: the write, and a read of the same register. */
    method Ca0113Write(off: nat)
      modifies this
      ensures log == old(log) + [Write(Offset(off)), Read(Offset(off))]
      ensures Open(log) == 0 && Longest(log) == Max(old(Longest(log)), old(Open(log)) + 1)
    {
      hide Open, Longest;
      WriteReg(Offset(off));
      var _ := ReadReg(Offset(off));
    }

    /** The AE-5 / AE-7 / AE-9 start-up table, with the extra writes of each card. */
    method MmioInitAe5(addr: seq<nat>, ae5: bool, ae7: bool, ae9: bool)
      modifies this
      ensures old(Open(log)) == 0 ==> Longest(log) <= Max(old(Longest(log)), 1)
      ensures Open(log) == 0
      ensures |addr| > 0 && old(Open(log)) == 0 ==> Longest(log) == Max(old(Longest(log)), 1)
    {
      hide Open, Longest;
      if ae7 {
        Ca0113Write(0x1c);
        Ca0113Write(0x1c);
      }
      var orig1c := ReadReg(Offset(0x1c));
      var i := 0;
      while i < |addr|
        invariant 0 <= i <= |addr| && Open(log) == 0
        invariant old(Open(log)) == 0 ==> old(Longest(log)) <= Longest(log) <= Max(old(Longest(log)), 1)
        invariant i > 0 && old(Open(log)) == 0 ==> Longest(log) == Max(old(Longest(log)), 1)
      {
        Ca0113Write(addr[i]);
        i := i + 1;
      }
      if ae5 || ae9 {
        Ca0113Write(0x1c);
      }
    }
  }

  /** One access to BAR2: a wrapped write or a plain read. */
  datatype BarOp = Wrapped(off: nat) | Plain(off: nat)

  function BarTrace(ops: seq<BarOp>): seq<Access> {
    if ops == [] then []
    else BarTrace(ops[..|ops| - 1]) +
         match ops[|ops| - 1]
         case Wrapped(o) => [Write(Offset(o)), Read(Offset(o))]
         case Plain(o) => [Read(Offset(o))]
  }

  /** However the card's code orders them, no two wrapped writes are posted in a row. */
  lemma {:induction false} WrappedWritesNeverPile(ops: seq<BarOp>)
    ensures Open(BarTrace(ops)) == 0 && Longest(BarTrace(ops)) <= 1
    ensures Longest(BarTrace(ops)) == 1 <==> exists k :: 0 <= k < |ops| && ops[k].Wrapped?
  {
    if ops != [] {
      var front, t := ops[..|ops| - 1], BarTrace(ops[..|ops| - 1]);
      WrappedWritesNeverPile(front);
      assert forall k :: 0 <= k < |front| ==> front[k] == ops[k];
      match ops[|ops| - 1]
      case Wrapped(o) =>
        AfterWrite(t, Offset(o));
        AfterRead(t + [Write(Offset(o))], Offset(o));
        assert t + [Write(Offset(o)), Read(Offset(o))] == t + [Write(Offset(o))] + [Read(Offset(o))];
      case Plain(o) =>
        AfterRead(t, Offset(o));
    }
  }

  /** The controller's registers, and what init_chip depends on. */
  class Controller {
    const io: Window
    const streams: nat
    const selfClear: bool
    const pio: bool
    const positionBuffer: bool
    var codecMask: nat
    var chipInit: bool

    constructor (io: Window, streams: nat, selfClear: bool, pio: bool, positionBuffer: bool)
      ensures !chipInit && codecMask == 0 && this.io == io && this.streams == streams
      ensures this.selfClear == selfClear && this.pio == pio && this.positionBuffer == positionBuffer
    {
      this.io, this.streams, this.selfClear, this.pio, this.positionBuffer := io, streams, selfClear, pio, positionBuffer;
      codecMask, chipInit := 0, false;
    }

    /** azx_clear_corbrp: the reset bit is polled, cleared and polled again. */
    method ClearCorbrp(isSet: nat -> bool, isZero: nat -> bool)
      modifies io
      ensures old(io.log) <= io.log
      ensures Open(io.log) == 0 && Longest(io.log) == Max(old(Longest(io.log)), 1)
    {
      hide Open, Longest;
      io.Poll(CORBRP, isSet, 1000);
      io.WriteReg(CORBRP);
      io.Poll(CORBRP, isZero, 1000);
    }

    /** snd_hdac_bus_reset_link; the polls may last for any number of reads. */
    method ResetLink(full: bool, enter: nat, exit: nat)
      modifies io, this`codecMask
      ensures old(io.log) <= io.log
      ensures Open(io.log) == 0 && old(Longest(io.log)) <= Longest(io.log) <= Max(old(Longest(io.log)), 1)
    {
      hide Open, Longest;
      if full {
        var inReset := io.ReadReg(GCTL);
        if inReset % 2 == 1 {
          io.WriteReg(STATESTS);
        }
        io.Update(GCTL);
        io.Poll(GCTL, v => v % 2 == 0, enter);
        io.Update(GCTL);
        io.Poll(GCTL, v => v != 0, exit);
      }
      var ready := io.ReadReg(GCTL);
      if ready != 0 && codecMask == 0 {
        codecMask := io.ReadReg(STATESTS);
      }
    }

    /** azx_int_clear: one burst of streams + 3 writes, closed by a read. */
    method IntClear()
      modifies io
      ensures old(io.log) <= io.log
      ensures Open(io.log) == 0 && Longest(io.log) == Max(old(Longest(io.log)), old(Open(io.log)) + streams + 3)
    {
      hide Open, Longest;
      var i := 0;
      while i < streams
        invariant 0 <= i <= streams && old(io.log) <= io.log && Open(io.log) == old(Open(io.log)) + i
        invariant Longest(io.log) == Max(old(Longest(io.log)), Open(io.log))
      {
        io.WriteReg(SD_STS(i));
        i := i + 1;
      }
      io.WriteReg(STATESTS);
      io.WriteReg(RIRBSTS);
      io.WriteReg(INTSTS);
      var _ := io.ReadReg(INTSTS);
    }

    /** The longest burst of the command ring set-up. */
    function RingBurst(): nat {
      (if selfClear then 5 else 0) + (if pio then 0 else 1) + 6
    }

    /** The CORB half of snd_hdac_bus_init_cmd_io, which leaves its last burst open. */
    method SetUpCorb()
      requires Open(io.log) == 0
      modifies io
      ensures old(io.log) <= io.log
      ensures Open(io.log) == RingBurst() - 6
      ensures Longest(io.log) == Max(old(Longest(io.log)), Max(5, RingBurst() - 6))
    {
      hide Open, Longest;
      io.WriteReg(CORBLBASE);
      io.WriteReg(CORBUBASE);
      io.WriteReg(CORBSIZE);
      io.WriteReg(CORBWP);
      io.WriteReg(CORBRP);
      if !selfClear {
        ClearCorbrp(v => v / 0x8000 % 2 == 1, v => v == 0);
      }
      if !pio {
        io.WriteReg(CORBCTL);
      }
    }

    /** snd_hdac_bus_init_cmd_io: the rings' registers, closed by a read. */
    method InitCmdIo()
      requires Open(io.log) == 0
      modifies io
      ensures old(io.log) <= io.log
      ensures Open(io.log) == 0 && Longest(io.log) == Max(old(Longest(io.log)), RingBurst())
    {
      hide Open, Longest;
      SetUpCorb();
      io.WriteReg(RIRBLBASE);
      io.WriteReg(RIRBUBASE);
      io.WriteReg(RIRBSIZE);
      io.WriteReg(RIRBWP);
      io.WriteReg(RINTCNT);
      io.WriteReg(RIRBCTL);
      io.Update(GCTL);
      var _ := io.ReadReg(GCTL);
    }

    /** snd_hdac_bus_init_chip. Whatever the hardware answers, and however many writes were
        posted before, the longest burst of the start-up is that of the interrupt clearing
        or that of the ring set-up: the two never join. */
    method InitChip(full: bool, enter: nat, exit: nat) returns (done: bool)
      modifies io, this
      ensures done <==> !old(chipInit)
      ensures done ==> chipInit && Longest(io.log) == Max(old(Longest(io.log)), Max(streams + 3, RingBurst()))
      ensures Longest(io.log) <= Max(old(Longest(io.log)), Max(streams + 3, 12))
      ensures done ==> Open(io.log) == if positionBuffer then 3 else 1
      ensures !done ==> io.log == old(io.log) && chipInit
    {
      hide Open, Longest;
      if chipInit {
        return false;
      }
      ResetLink(full, enter, exit);
      IntClear();
      InitCmdIo();
      io.Update(INTCTL);
      if positionBuffer {
        io.WriteReg(DPLBASE);
        io.WriteReg(DPUBASE);
      }
      chipInit := true;
      done := true;
    }
  }
}
