/** ops.py: rebuilding operations from captured verbs. The driver's chip I/O and SCP
    functions print verbs; this is the parser for them, and the theorems say that
    parsing undoes printing although the printer leaves out address verbs. */
module TraceDecoder {
  import opened Options
  import opened Words
  import opened ChipIo

  /** One line of the report. Lines of verbs that are neither chip I/O writes or reads nor
      SCP traffic are kept as the verb itself. */
  datatype Line =
    | ChipioWrite(addr: int, val: u32)
    | ChipioRead(addr: int)
    | Scp(target: int, src: int, req: int, get: int, dev: int, n: int, data: seq<u32>)
    | Other(nid: int, v20: int)

  datatype Ops = Ops(chipAddr: nat, chipLo: Option<u16>, scp: seq<u32>, scpLo: Option<u16>, lines: seq<Line>)

  function OrZero(x: Option<u16>): u16 {
    if x.Some? then x.value else 0
  }

  // ---- the wire format ----------------------------------------------------------

  /** snd_hdac_make_cmd. A verb with a 16-bit payload has its low byte clear, so the four
      fields never overlap. */
  function MakeCmd(addr: nat, nid: nat, verb: nat, parm: nat): (r: u32)
    requires addr < 16 && nid < 0x80 && verb < 0x1000 && parm < 0x1_0000
    requires parm < 0x100 || verb % 0x100 == 0
  {
    addr * 0x1000_0000 + nid * 0x10_0000 + verb * 0x100 + parm
  }

  function Encode(v: Verb): u32 {
    match v
    case AddressLow(p) => MakeCmd(1, WIDGET_CHIP_CTRL, 0x000, p)
    case AddressHigh(p) => MakeCmd(1, WIDGET_CHIP_CTRL, 0x100, p)
    case DataLow(p) => MakeCmd(1, WIDGET_CHIP_CTRL, 0x300, p)
    case DataHigh(p) => MakeCmd(1, WIDGET_CHIP_CTRL, 0x400, p)
    case PostRead => MakeCmd(1, WIDGET_CHIP_CTRL, 0x702, 0)
    case ChipStatus => MakeCmd(1, WIDGET_CHIP_CTRL, 0xF01, 0)
    case ReadData => MakeCmd(1, WIDGET_CHIP_CTRL, 0xF03, 0)
    case ScpLow(p) => MakeCmd(1, WIDGET_DSP_CTRL, 0x000, p)
    case ScpHigh(p) => MakeCmd(1, WIDGET_DSP_CTRL, 0x100, p)
    case DspStatus => MakeCmd(1, WIDGET_DSP_CTRL, 0xF01, 0)
  }

  /** The command words of the ten verbs, widgets 0x15 and 0x16 of codec 1. */
  lemma EncodedWords(p: u16)
    ensures Encode(AddressLow(p)) == 0x1150_0000 + p && Encode(AddressHigh(p)) == 0x1151_0000 + p
    ensures Encode(DataLow(p)) == 0x1153_0000 + p && Encode(DataHigh(p)) == 0x1154_0000 + p
    ensures Encode(PostRead) == 0x1157_0200 && Encode(ChipStatus) == 0x115F_0100 && Encode(ReadData) == 0x115F_0300
    ensures Encode(ScpLow(p)) == 0x1160_0000 + p && Encode(ScpHigh(p)) == 0x1161_0000 + p && Encode(DspStatus) == 0x116F_0100
  {
  }

  // ---- the decoder --------------------------------------------------------------

  function Emit(d: Ops, l: Line): Ops {
    d.(lines := d.lines + [l])
  }

  /** Ops.chipio: verbs of the chip-control widget. */
  function Chipio(d: Ops, v20: nat): Ops
    requires v20 < 0x10_0000
  {
    var top, pay16, verb := v20 / 0x1_0000, v20 % 0x1_0000, v20 / 0x100;
    if top == 0x0 then
      d.(chipAddr := d.chipAddr / 0x1_0000 % 0x1_0000 * 0x1_0000 + pay16)
    else if top == 0x1 then
      d.(chipAddr := pay16 * 0x1_0000 + d.chipAddr % 0x1_0000)
    else if top == 0x2 then
      Emit(d, Other(WIDGET_CHIP_CTRL, v20))
    else if top == 0x3 then
      d.(chipLo := Some(pay16))
    else if top == 0x4 then
      var d1 := Emit(d, ChipioWrite(d.chipAddr, Join(pay16, OrZero(d.chipLo))));
      d1.(chipAddr := d.chipAddr + 4, chipLo := None)
    else if verb == 0xF03 then
      Emit(d, ChipioRead(d.chipAddr)).(chipAddr := d.chipAddr + 4)
    else if verb in {0x702, 0x70D, 0x70E, 0x717, 0xF01} then
      d
    else
      Emit(d, Other(WIDGET_CHIP_CTRL, v20))
  }

  /** The line printed for a complete SCP message. */
  function ScpLine(hdr: u32, data: seq<u32>): Line {
    Scp(hdr % 0x100, hdr / 0x100 % 0x100, hdr / 0x2_0000 % 0x80, hdr / 0x1_0000 % 2,
        hdr / 0x100_0000 % 2, hdr / 0x800_0000 % 0x20, data)
  }

  /** Ops.dspio: verbs of the DSP-control widget. */
  function Dspio(d: Ops, v20: nat): Ops
    requires v20 < 0x10_0000
  {
    var top, pay16, verb := v20 / 0x1_0000, v20 % 0x1_0000, v20 / 0x100;
    if top == 0x0 then
      d.(scpLo := Some(pay16))
    else if top == 0x1 then
      var scp := d.scp + [Join(pay16, OrZero(d.scpLo))];
      var hdr := scp[0];
      if |scp| >= 1 + hdr / 0x800_0000 % 0x20 then
        Emit(d, ScpLine(hdr, scp[1..])).(scpLo := None, scp := [])
      else
        d.(scpLo := None, scp := scp)
    else if verb in {0x704, 0xF04, 0x702, 0xF01} then
      d
    else
      Emit(d, Other(WIDGET_DSP_CTRL, v20))
  }

  /** Ops.verb on a raw command word. */
  function Step(d: Ops, raw: u32): Ops {
    var cad, nid, v20 := raw / 0x1000_0000, raw / 0x10_0000 % 0x80, raw % 0x10_0000;
    if cad == 1 && nid == WIDGET_CHIP_CTRL then
      Chipio(d, v20)
    else if cad == 1 && nid == WIDGET_DSP_CTRL then
      Dspio(d, v20)
    else if v20 / 0x100 == 0xF01 && (nid == WIDGET_CHIP_CTRL || nid == WIDGET_DSP_CTRL) then
      d
    else
      Emit(d, Other(nid, v20))
  }

  function Decode(d: Ops, vs: seq<Verb>): Ops {
    if vs == [] then d else Step(Decode(d, Front(vs)), Encode(Last(vs)))
  }

  lemma {:induction false} DecodeConcat(d: Ops, s: seq<Verb>, t: seq<Verb>)
    ensures Decode(d, s + t) == Decode(Decode(d, s), t)
  {
    hide Step;
    if t == [] {
      assert s + t == s;
    } else {
      DecodeConcat(d, s, Front(t));
      assert Front(s + t) == s + Front(t);
    }
  }

  /** A capture: the raw command words as they were seen on the link. */
  function DecodeRaw(d: Ops, raws: seq<u32>): Ops {
    if raws == [] then d else Step(DecodeRaw(d, Front(raws)), Last(raws))
  }

  function EncodeAll(vs: seq<Verb>): (r: seq<u32>)
    ensures |r| == |vs|
  {
    if vs == [] then [] else EncodeAll(Front(vs)) + [Encode(Last(vs))]
  }

  /** Decoding the driver's verbs is decoding the words they are encoded in. */
  lemma {:induction false} VerbsAreCaptured(d: Ops, vs: seq<Verb>)
    ensures Decode(d, vs) == DecodeRaw(d, EncodeAll(vs))
  {
    hide Step, Encode;
    if vs != [] {
      VerbsAreCaptured(d, Front(vs));
      assert Front(EncodeAll(vs)) == EncodeAll(Front(vs));
    }
  }

  /** The decoder in place, as ops.py runs it. */
  class Decoder {
    var chipAddr: nat
    var chipLo: Option<u16>
    var scp: seq<u32>
    var scpLo: Option<u16>
    var lines: seq<Line>

    ghost function State(): Ops
      reads this
    {
      Ops(chipAddr, chipLo, scp, scpLo, lines)
    }

    constructor ()
      ensures State() == Ops(0, None, [], None, [])
    {
      chipAddr, chipLo, scp, scpLo, lines := 0, None, [], None, [];
    }

    method EmitLine(l: Line)
      modifies this`lines
      ensures lines == old(lines) + [l]
    {
      lines := lines + [l];
    }

    method VerbEvent(raw: u32)
      modifies this
      ensures State() == Step(old(State()), raw)
    {
      var cad, nid, v20 := raw / 0x1000_0000, raw / 0x10_0000 % 0x80, raw % 0x10_0000;
      if cad == 1 && nid == WIDGET_CHIP_CTRL {
        ChipioEvent(v20);
      } else if cad == 1 && nid == WIDGET_DSP_CTRL {
        DspioEvent(v20);
      } else if v20 / 0x100 == 0xF01 && (nid == WIDGET_CHIP_CTRL || nid == WIDGET_DSP_CTRL) {
        // a status poll, counted but not printed
      } else {
        EmitLine(Other(nid, v20));
      }
    }

    method ChipioEvent(v20: nat)
      requires v20 < 0x10_0000
      modifies this
      ensures State() == Chipio(old(State()), v20)
    {
      var top, pay, verb := v20 / 0x1_0000, v20 % 0x1_0000, v20 / 0x100;
      if top == 0x0 {
        chipAddr := chipAddr / 0x1_0000 % 0x1_0000 * 0x1_0000 + pay;
      } else if top == 0x1 {
        chipAddr := pay * 0x1_0000 + chipAddr % 0x1_0000;
      } else if top == 0x2 {
        EmitLine(Other(WIDGET_CHIP_CTRL, v20));
      } else if top == 0x3 {
        chipLo := Some(pay);
      } else if top == 0x4 {
        EmitLine(ChipioWrite(chipAddr, Join(pay, OrZero(chipLo))));
        chipAddr := chipAddr + 4;
        chipLo := None;
      } else if verb == 0xF03 {
        EmitLine(ChipioRead(chipAddr));
        chipAddr := chipAddr + 4;
      } else if verb in {0x702, 0x70D, 0x70E, 0x717, 0xF01} {
        // changes decoder state that only the text of other lines shows
      } else {
        EmitLine(Other(WIDGET_CHIP_CTRL, v20));
      }
    }

    method DspioEvent(v20: nat)
      requires v20 < 0x10_0000
      modifies this
      ensures State() == Dspio(old(State()), v20)
    {
      var top, pay, verb := v20 / 0x1_0000, v20 % 0x1_0000, v20 / 0x100;
      if top == 0x0 {
        scpLo := Some(pay);
      } else if top == 0x1 {
        scp := scp + [Join(pay, OrZero(scpLo))];
        scpLo := None;
        if |scp| >= 1 + scp[0] / 0x800_0000 % 0x20 {
          EmitLine(ScpLine(scp[0], scp[1..]));
          scp := [];
        }
      } else if verb in {0x704, 0xF04, 0x702, 0xF01} {
        // a poll, counted but not printed
      } else {
        EmitLine(Other(WIDGET_DSP_CTRL, v20));
      }
    }

    /** The main loop over a capture. */
    method DecodeCapture(raws: seq<u32>)
      modifies this
      ensures State() == DecodeRaw(old(State()), raws)
    {
      assert raws[..|raws|] == raws;
      for i := 0 to |raws|
        invariant State() == DecodeRaw(old(State()), raws[..i])
      {
        assert Front(raws[..i + 1]) == raws[..i];
        VerbEvent(raws[i]);
      }
    }
  }

  // ---- what the decoder makes of each encoded verb --------------------------------

  /** Codec, widget and verb survive the packing into one word. */
  lemma CmdFields(cad: nat, nid: nat, v20: nat)
    requires cad < 16 && nid < 0x80 && v20 < 0x10_0000
    ensures var r := cad * 0x1000_0000 + nid * 0x10_0000 + v20;
            r / 0x1000_0000 == cad && r / 0x10_0000 % 0x80 == nid && r % 0x10_0000 == v20
  {
    var r := cad * 0x1000_0000 + nid * 0x10_0000 + v20;
    DivisionIsUnique(r, 0x1000_0000, cad, nid * 0x10_0000 + v20);
    DivisionIsUnique(r, 0x10_0000, 0x100 * cad + nid, v20);
    DivisionIsUnique(0x100 * cad + nid, 0x80, 2 * cad, nid);
  }

  lemma StepIsChipio(d: Ops, verb: nat, p: nat)
    requires verb < 0x1000 && p < 0x1_0000 && (p < 0x100 || verb % 0x100 == 0)
    ensures verb * 0x100 + p < 0x10_0000
    ensures Step(d, MakeCmd(1, WIDGET_CHIP_CTRL, verb, p)) == Chipio(d, verb * 0x100 + p)
    ensures Step(d, MakeCmd(1, WIDGET_DSP_CTRL, verb, p)) == Dspio(d, verb * 0x100 + p)
  {
    assert verb % 0x100 == 0 ==> verb * 0x100 <= 0xF_0000;
    CmdFields(1, WIDGET_CHIP_CTRL, verb * 0x100 + p);
    CmdFields(1, WIDGET_DSP_CTRL, verb * 0x100 + p);
  }

  lemma PayloadFields(k: nat, p: u16)
    requires k < 16
    ensures (k * 0x1_0000 + p) / 0x1_0000 == k && (k * 0x1_0000 + p) % 0x1_0000 == p
  {
  }

  /** The four verbs that carry 16 bits of address or data. */
  lemma StepOnAddress(d: Ops, p: u16)
    ensures Step(d, Encode(AddressLow(p))) == d.(chipAddr := d.chipAddr / 0x1_0000 % 0x1_0000 * 0x1_0000 + p)
    ensures Step(d, Encode(AddressHigh(p))) == d.(chipAddr := p * 0x1_0000 + d.chipAddr % 0x1_0000)
  {
    hide Step, MakeCmd;
    StepIsChipio(d, 0x000, p);
    StepIsChipio(d, 0x100, p);
    PayloadFields(0, p);
    PayloadFields(1, p);
  }

  lemma StepOnData(d: Ops, p: u16)
    ensures Step(d, Encode(DataLow(p))) == d.(chipLo := Some(p))
    ensures Step(d, Encode(DataHigh(p)))
         == Emit(d, ChipioWrite(d.chipAddr, Join(p, OrZero(d.chipLo)))).(chipAddr := d.chipAddr + 4, chipLo := None)
  {
    hide Step, MakeCmd;
    StepIsChipio(d, 0x300, p);
    StepIsChipio(d, 0x400, p);
    PayloadFields(3, p);
    PayloadFields(4, p);
  }

  lemma StepOnPolls(d: Ops)
    ensures Step(d, Encode(PostRead)) == Step(d, Encode(ChipStatus)) == Step(d, Encode(DspStatus)) == d
    ensures Step(d, Encode(ReadData)) == Emit(d, ChipioRead(d.chipAddr)).(chipAddr := d.chipAddr + 4)
  {
    hide Step, MakeCmd;
    StepIsChipio(d, 0x702, 0);
    StepIsChipio(d, 0xF01, 0);
    StepIsChipio(d, 0xF03, 0);
  }

  lemma StepOnScp(d: Ops, p: u16)
    ensures Step(d, Encode(ScpLow(p))) == d.(scpLo := Some(p))
    ensures Step(d, Encode(ScpHigh(p))) == Dspio(d, 0x1_0000 + p)
  {
    hide Step, MakeCmd;
    StepIsChipio(d, 0x000, p);
    StepIsChipio(d, 0x100, p);
    PayloadFields(0, p);
  }

  /** Verbs to anything but the two widgets of codec 1 are printed as they are, except status
      polls; so are the flag verbs of the chip-control widget and unknown verbs of both. */
  lemma StepOnOthers(d: Ops, cad: nat, nid: nat, v20: nat)
    requires cad < 16 && nid < 0x80 && v20 < 0x10_0000
    ensures var raw := cad * 0x1000_0000 + nid * 0x10_0000 + v20;
            var mine := cad == 1 && (nid == WIDGET_CHIP_CTRL || nid == WIDGET_DSP_CTRL);
            && (!mine && (v20 / 0x100 != 0xF01 || (nid != WIDGET_CHIP_CTRL && nid != WIDGET_DSP_CTRL)) ==>
                  Step(d, raw) == Emit(d, Other(nid, v20)))
            && (!mine && v20 / 0x100 == 0xF01 && (nid == WIDGET_CHIP_CTRL || nid == WIDGET_DSP_CTRL) ==> Step(d, raw) == d)
            && (cad == 1 && nid == WIDGET_CHIP_CTRL && 0x2_0000 <= v20 < 0x3_0000 ==> Step(d, raw) == Emit(d, Other(nid, v20)))
            && (mine && v20 >= 0x5_0000 && v20 / 0x100 !in {0x702, 0x704, 0x70D, 0x70E, 0x717, 0xF01, 0xF03, 0xF04} ==>
                  Step(d, raw) == Emit(d, Other(nid, v20)))
  {
    CmdFields(cad, nid, v20);
  }
}
