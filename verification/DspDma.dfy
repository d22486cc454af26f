/** The DSP's three memories, the address arithmetic of ca0132_regs.h, and the register
    words that program one run of the DSP's DMA controller. */
module DspDma {
  import opened Words

  const Y_BASE := 0x4_0000               // X memory is 0..Y_BASE
  const UC_BASE := 0x8_0000
  const UC_END := 0xC_0000
  const INVALID_CHIP_ADDRESS := 0xFFFF_FFFF

  datatype Space = Code | XRam | YRam

  /** Address of the last of s words, in 32-bit arithmetic. */
  function LastWord(a: u32, s: nat): u32
    requires 0 < s < TWO_32
  {
    (a + (s - 1) * 4) % TWO_32
  }

  predicate UcRange(a: u32, s: nat)
    requires 0 < s < TWO_32
  {
    a >= UC_BASE && LastWord(a, s) < UC_END
  }

  predicate XRangeAll(a: u32, s: nat)
    requires 0 < s < TWO_32
  {
    LastWord(a, s) < Y_BASE
  }

  predicate YRangeAll(a: u32, s: nat)
    requires 0 < s < TWO_32
  {
    a >= Y_BASE && LastWord(a, s) < UC_BASE
  }

  function BaseOf(m: Space): u32 {
    match m
    case Code => UC_BASE
    case XRam => 0
    case YRam => Y_BASE
  }

  function EndOf(m: Space): u32 {
    match m
    case Code => UC_END
    case XRam => Y_BASE
    case YRam => UC_BASE
  }

  /** The s words from a on lie inside memory m. */
  predicate Within(m: Space, a: u32, s: nat) {
    BaseOf(m) <= a && a + 4 * s <= EndOf(m) + 3
  }

  /** What dspxfr_one_seg asks of a block. */
  predicate RangeTestsPass(a: u32, s: nat)
    requires 0 < s < TWO_32
  {
    UcRange(a, s) || XRangeAll(a, s) || YRangeAll(a, s)
  }

  /** Where the highest memory that starts at or below a ends. */
  function Limit(a: u32): u32 {
    if a >= UC_BASE then UC_END else if a >= Y_BASE then UC_BASE else Y_BASE
  }

  /** The tests are right about a block (they accept it exactly when it lies in one memory)
      if and only if it does not wrap around the 32-bit address space, or wraps so far that
      its last word lands beyond the limit of its start. */
  lemma RangeTestsRightIff(a: u32, s: nat)
    requires 0 < s < TWO_32
    ensures (RangeTestsPass(a, s) <==> exists m :: Within(m, a, s))
       <==> (a + 4 * (s - 1) < TWO_32 || LastWord(a, s) >= Limit(a))
  {
    var last := a + 4 * (s - 1);
    if last < TWO_32 {
      assert LastWord(a, s) == last;
      if UcRange(a, s) {
        assert Within(Code, a, s);
      } else if XRangeAll(a, s) {
        assert Within(XRam, a, s);
      } else if YRangeAll(a, s) {
        assert Within(YRam, a, s);
      }
    } else {
      assert forall m :: !Within(m, a, s);
    }
  }

  /** So for a block that does not wrap the tests mean: it lies in one memory. */
  lemma RangeTestsMeanOneMemory(a: u32, s: nat)
    requires s > 0 && a + 4 * s <= TWO_32
    ensures RangeTestsPass(a, s) <==> exists m :: Within(m, a, s)
  {
    RangeTestsRightIff(a, s);
  }

  /** A wrapping block slips through: eight words from 0xFFFFFFF0 on count as X memory. */
  lemma WrappingBlockPasses()
    ensures XRangeAll(0xFFFF_FFF0, 8) && forall m :: !Within(m, 0xFFFF_FFF0, 8)
  {
    assert LastWord(0xFFFF_FFF0, 8) == 0xC;
  }

  /** dsp_chip_to_dsp_addx. */
  datatype DspAddr = DspAddr(space: Space, word: nat) | BadAddress

  function ChipToDsp(a: u32): DspAddr {
    if UcRange(a, 1) then DspAddr(Code, (a - UC_BASE) / 4)
    else if XRangeAll(a, 1) then DspAddr(XRam, a / 4)
    else if YRangeAll(a, 1) then DspAddr(YRam, (a - Y_BASE) / 4)
    else BadAddress
  }

  /** The memories are disjoint: whatever block an address starts, its translation names
      the memory it lies in. */
  lemma TranslationNamesMemory(m: Space, a: u32)
    ensures Within(m, a, 1) ==> ChipToDsp(a) == DspAddr(m, (a - BaseOf(m)) / 4)
  {
  }

  /** An address is refused exactly when it lies in none of the memories. */
  lemma RefusedIffNowhere(a: u32)
    ensures ChipToDsp(a).BadAddress? <==> forall m :: !Within(m, a, 1)
  {
    forall m
      ensures Within(m, a, 1) ==> ChipToDsp(a).DspAddr?
    {
      TranslationNamesMemory(m, a);
    }
    if ChipToDsp(a).DspAddr? {
      assert Within(ChipToDsp(a).space, a, 1);
    }
  }

  // ---- the register words of one run --------------------------------------------------

  datatype Registers = Registers(dmacfg: u32, dspadrofs: u32, xfrcnt: u32)

  datatype Setup = Ready(regs: Registers) | TooLong | BadChipAddress

  const MAX_DMA_COUNT := 0x1_0000

  /** dsp_dma_setup: words are computed with 32-bit shifts, so a value that is too large
      loses its top bits. */
  function DmaSetup(a: u32, count: nat): Setup
    requires count > 0
  {
    if count > MAX_DMA_COUNT then TooLong
    else match ChipToDsp(a)
      case BadAddress => BadChipAddress
      case DspAddr(space, word) =>
        var addrField := if space.Code? then word else word * 2 + (if space.YRam? then 1 else 0);
        var incrField := if space.Code? then 0 else 0x4_0000;
        var shift := if space.Code? then 0x1_0000 else 0x2_0000;
        Ready(Registers((addrField + incrField) % TWO_32,
                        (count - 1) * shift % TWO_32,
                        (count - 1) * 0x1_0000 % TWO_32 + (count - 1) % 0x1_0000))
  }

  /** What the DMA controller makes of the words, given the channel's memory-space bit:
      DBADR is 17 bits wide, AINCR is bit 18, BOFS and BCNT are the upper halves and
      CCNT the lower half of their words. */
  datatype Run = Run(space: Space, word: nat, count: nat)

  function Dbadr(r: Registers): nat {
    r.dmacfg % 0x2_0000
  }

  function Aincr(r: Registers): nat {
    r.dmacfg / 0x4_0000 % 2
  }

  function Bofs(r: Registers): nat {
    r.dspadrofs / 0x1_0000
  }

  function Bcnt(r: Registers): nat {
    r.xfrcnt / 0x1_0000
  }

  function Ccnt(r: Registers): nat {
    r.xfrcnt % 0x1_0000
  }

  function DecodeRun(code: bool, r: Registers): Run {
    if code then Run(Code, Dbadr(r), Bcnt(r) + 1)
    else Run(if Dbadr(r) % 2 == 1 then YRam else XRam, Dbadr(r) / 2, Bcnt(r) + 1)
  }

  /** The longest run the loader may ask for in a memory. */
  function MaxRun(m: Space): nat {
    if m.Code? then 65536 else 32768
  }

  /** Every run the loader can ask for is programmed faithfully: the address stays inside
      DBADR, the stride bit is set exactly for data memory, offset and counts stay inside
      their fields with nothing spilled into a neighbour, and the controller decodes the
      very memory, word address and count that were meant. */
  lemma RegistersDecode(m: Space, a: u32, count: nat)
    requires 0 < count <= MaxRun(m) && Within(m, a, count)
    ensures DmaSetup(a, count).Ready?
    ensures var r := DmaSetup(a, count).regs;
            && r.dmacfg == Dbadr(r) + Aincr(r) * 0x4_0000 && (Aincr(r) == 0 <==> m.Code?)
            && r.dspadrofs % 0x1_0000 == 0 && Bofs(r) == (count - 1) * (if m.Code? then 1 else 2)
            && Bcnt(r) == Ccnt(r) == count - 1
            && DecodeRun(m.Code?, r) == Run(m, (a - BaseOf(m)) / 4, count)
  {
    TranslationNamesMemory(m, a);
    var word := (a - BaseOf(m)) / 4;
    assert word < 0x1_0000;
    var r := DmaSetup(a, count).regs;
    CountsFit(count - 1);
    if m.Code? {
      assert r.dmacfg == word;
    } else {
      assert r.dmacfg == word * 2 + (if m.YRam? then 1 else 0) + 0x4_0000;
    }
  }

  lemma CountsFit(n: nat)
    requires n < 0x1_0000
    ensures n * 0x1_0000 % TWO_32 == n * 0x1_0000 && n * 0x1_0000 % 0x1_0000 == 0 && n * 0x1_0000 / 0x1_0000 == n
    ensures (n * 0x1_0000 + n) / 0x1_0000 == n && (n * 0x1_0000 + n) % 0x1_0000 == n
    ensures n < 0x8000 ==> n * 0x2_0000 % TWO_32 == n * 0x2_0000 && n * 0x2_0000 % 0x1_0000 == 0
                           && n * 0x2_0000 / 0x1_0000 == 2 * n
  {
    DivisionIsUnique(n * 0x1_0000, TWO_32, 0, n * 0x1_0000);
    DivisionIsUnique(n * 0x1_0000, 0x1_0000, n, 0);
    DivisionIsUnique(n * 0x1_0000 + n, 0x1_0000, n, n);
    if n < 0x8000 {
      DivisionIsUnique(n * 0x2_0000, TWO_32, 0, n * 0x2_0000);
      DivisionIsUnique(n * 0x2_0000, 0x1_0000, 2 * n, 0);
    }
  }

  /** Two runs with the same words and the same memory-space bit are the same run. */
  lemma RegistersAreUnique(m: Space, a: u32, count: nat, m': Space, a': u32, count': nat)
    requires 0 < count <= MaxRun(m) && Within(m, a, count) && 0 < count' <= MaxRun(m') && Within(m', a', count')
    requires a % 4 == a' % 4 == 0
    requires DmaSetup(a, count) == DmaSetup(a', count') && m.Code? == m'.Code?
    ensures m == m' && a == a' && count == count'
  {
    hide DmaSetup, DecodeRun, Dbadr, Aincr, Bofs, Bcnt, Ccnt, BaseOf;
    RegistersDecode(m, a, count);
    RegistersDecode(m', a', count');
    SameWord(m, a, a');
  }

  lemma SameWord(m: Space, a: u32, b: u32)
    requires a % 4 == b % 4 == 0 && BaseOf(m) <= a && BaseOf(m) <= b
    requires (a - BaseOf(m)) / 4 == (b - BaseOf(m)) / 4
    ensures a == b
  {
  }

  /** The cap is tight: for data memory the offset word holds count - 1 if and only if the
      run is no longer than 32768 words, although dsp_dma_setup itself accepts 65536. */
  lemma OffsetFitsIff(m: Space, a: u32, count: nat)
    requires 0 < count <= MAX_DMA_COUNT && Within(m, a, 1)
    ensures DmaSetup(a, count).Ready?
    ensures Bofs(DmaSetup(a, count).regs) == (count - 1) * (if m.Code? then 1 else 2) <==> count <= MaxRun(m)
  {
    TranslationNamesMemory(m, a);
    CountsFit(count - 1);
    if !m.Code? && count > 32768 {
      var x := (count - 1) * 0x2_0000;
      assert x % TWO_32 == x - TWO_32;
      assert (x - TWO_32) / 0x1_0000 == 2 * (count - 1) - 0x1_0000 by {
        CountsFit(2 * (count - 1) - 0x1_0000);
        assert x - TWO_32 == (2 * (count - 1) - 0x1_0000) * 0x1_0000;
      }
    }
  }

  /** The stores one run performs: consecutive words of the stream to consecutive word
      addresses of the run's memory. */
  datatype Store = Store(addr: int, val: u32)

  function Stores(a: int, data: seq<u32>): (r: seq<Store>)
    ensures |r| == |data|
  {
    seq(|data|, i requires 0 <= i < |data| => Store(a + 4 * i, data[i]))
  }

  function RunStores(run: Run, stream: seq<u32>): seq<Store> {
    if run.count > |stream| then []
    else Stores(BaseOf(run.space) + 4 * run.word, stream[..run.count])
  }

  // ---- the frame size of the download stream -------------------------------------------

  /** snd_hdac_stream_format for the base rates dspload_image can ask for: one channel too
      many or an unlisted rate yields zero. 32-bit samples are code 4 in bits 4..6, the
      rate multiple less one sits at bit 11. */
  function StreamFormat(channels: nat, rate: nat): nat {
    if channels == 0 || channels > 16 then 0
    else if rate == 48000 then 0x40 + channels - 1
    else if rate == 96000 then 0x800 + 0x40 + channels - 1
    else if rate == 192000 then 0x1800 + 0x40 + channels - 1
    else 0
  }

  /** Frame size in words, as dspxfr_one_seg recovers it from the format. */
  function FrameWords(fmt: nat): nat {
    var rate := fmt / 0x100 % 0x80;
    var div, mul := rate % 4 + 1, rate / 8 % 4 + 1;
    (fmt % 0x10 + 1) * mul / div
  }

  /** The loop of dspload_image that trades channels for rate. */
  function SplitRate(channels: nat, rate: nat): (nat, nat) {
    if channels > 16 then SplitRate(channels / 2, rate * 2) else (channels, rate)
  }

  method SplitChannels(routerChans: nat) returns (channels: nat, sampleRate: nat)
    ensures (channels, sampleRate) == SplitRate(routerChans, 48000)
  {
    channels, sampleRate := routerChans, 48000;
    while channels > 16
      invariant SplitRate(routerChans, 48000) == SplitRate(channels, sampleRate)
    {
      channels, sampleRate := channels / 2, sampleRate * 2;
    }
  }

  /** For every permitted number of router channels (at most 32) a frame of the download
      stream holds exactly that many words if and only if there are at most 16 of them or
      their number is even. */
  lemma FrameHoldsRouterChannelsIff(routerChans: nat)
    requires 1 <= routerChans <= 32
    ensures var (channels, rate) := SplitRate(routerChans, 48000);
            FrameWords(StreamFormat(channels, rate)) == routerChans <==> routerChans <= 16 || routerChans % 2 == 0
  {
    if routerChans > 16 {
      assert SplitRate(routerChans / 2, 96000) == (routerChans / 2, 96000);
      FrameOf96k(routerChans / 2);
    } else {
      FrameOf48k(routerChans);
    }
  }

  lemma FrameOf48k(ch: nat)
    requires 1 <= ch <= 16
    ensures FrameWords(StreamFormat(ch, 48000)) == ch
  {
    var fmt := StreamFormat(ch, 48000);
    assert fmt % 0x10 == ch - 1 && fmt / 0x100 == 0;
  }

  lemma FrameOf96k(ch: nat)
    requires 1 <= ch <= 16
    ensures FrameWords(StreamFormat(ch, 96000)) == 2 * ch
  {
    var fmt := StreamFormat(ch, 96000);
    assert fmt % 0x10 == ch - 1 && fmt / 0x100 == 8;
  }
}
