/** Loading a DSP image: each segment is cut into a remainder that goes through chip I/O
    and whole-frame DMA runs; an image is a list of segments, some preceded by a list of
    single writes. Chip I/O is taken at its word here (every access lands, see ChipIo)
    and every DMA run completes. */
module DspLoader {
  import opened Words
  import opened DspDma

  // ---- stores and memory -----------------------------------------------------------

  function ApplyStores(mem: map<int, u32>, log: seq<Store>): map<int, u32> {
    if log == [] then mem else ApplyStores(mem, Front(log))[Last(log).addr := Last(log).val]
  }

  lemma {:induction false} ApplyConcat(mem: map<int, u32>, s: seq<Store>, t: seq<Store>)
    ensures ApplyStores(mem, s + t) == ApplyStores(ApplyStores(mem, s), t)
  {
    if t == [] {
      assert s + t == s;
    } else {
      ApplyConcat(mem, s, Front(t));
      assert Front(s + t) == s + Front(t);
    }
  }

  predicate Disjoint(s: seq<Store>, t: seq<Store>) {
    forall i, j :: 0 <= i < |s| && 0 <= j < |t| ==> s[i].addr != t[j].addr
  }

  lemma {:induction false} StoreCommutes(mem: map<int, u32>, s: seq<Store>, x: Store)
    requires forall i :: 0 <= i < |s| ==> s[i].addr != x.addr
    ensures ApplyStores(mem[x.addr := x.val], s) == ApplyStores(mem, s)[x.addr := x.val]
  {
    if s != [] {
      StoreCommutes(mem, Front(s), x);
    }
  }

  /** Stores to different addresses may be swapped as blocks. */
  lemma {:induction false} DisjointCommute(mem: map<int, u32>, s: seq<Store>, t: seq<Store>)
    requires Disjoint(s, t)
    ensures ApplyStores(mem, s + t) == ApplyStores(mem, t + s)
  {
    if t == [] {
      assert s + t == s == t + s;
    } else {
      DisjointCommute(mem, s, Front(t));
      var x := Last(t);
      assert Front(s + t) == s + Front(t);
      assert t + s == Front(t) + [x] + s;
      ApplyConcat(mem, Front(t) + [x], s);
      ApplyConcat(mem, Front(t), [x]);
      ApplyConcat(mem, Front(t), s);
      assert Front([x]) == [];
      StoreCommutes(ApplyStores(mem, Front(t)), s, x);
    }
  }

  /** m runs through s and t at once, keeping each one's own order. */
  predicate Interleaves(m: seq<Store>, s: seq<Store>, t: seq<Store>)
    decreases |m|
  {
    if m == [] then
      s == t == []
    else
      || (s != [] && Last(s) == Last(m) && Interleaves(Front(m), Front(s), t))
      || (t != [] && Last(t) == Last(m) && Interleaves(Front(m), s, Front(t)))
  }

  /** While a DMA run is under way the driver already writes the remainder (and the list of
      single writes). However the two interleave, memory ends up the same, as long as they
      touch different addresses. */
  lemma {:induction false} InterleavingIsHarmless(mem: map<int, u32>, m: seq<Store>, s: seq<Store>, t: seq<Store>)
    requires Interleaves(m, s, t) && Disjoint(s, t)
    ensures ApplyStores(mem, m) == ApplyStores(mem, s + t)
    decreases |m|
  {
    if m == [] {
    } else if t != [] && Last(t) == Last(m) && Interleaves(Front(m), s, Front(t)) {
      InterleavingIsHarmless(mem, Front(m), s, Front(t));
      assert Front(s + t) == s + Front(t);
    } else {
      InterleavingIsHarmless(mem, Front(m), Front(s), t);
      DisjointCommute(mem, Front(s), t);
      DisjointCommute(mem, s, t);
      assert Front(t + s) == t + Front(s);
    }
  }

  /** One way for s and t to run at once: `pick` says whose turn it is. */
  function Merge(s: seq<Store>, t: seq<Store>, pick: nat -> bool): (m: seq<Store>)
    ensures |m| == |s| + |t|
    decreases |s| + |t|
  {
    if s == [] && t == [] then []
    else if t == [] || (s != [] && pick(|s| + |t|)) then Merge(Front(s), t, pick) + [Last(s)]
    else Merge(s, Front(t), pick) + [Last(t)]
  }

  lemma {:induction false} MergeInterleaves(s: seq<Store>, t: seq<Store>, pick: nat -> bool)
    ensures Interleaves(Merge(s, t, pick), s, t)
    decreases |s| + |t|
  {
    if s == [] && t == [] {
    } else if t == [] || (s != [] && pick(|s| + |t|)) {
      MergeInterleaves(Front(s), t, pick);
      assert Front(Merge(s, t, pick)) == Merge(Front(s), t, pick);
    } else {
      MergeInterleaves(s, Front(t), pick);
      assert Front(Merge(s, t, pick)) == Merge(s, Front(t), pick);
    }
  }

  lemma {:induction false} MergeDependsOnTurns(s: seq<Store>, t: seq<Store>, pick: nat -> bool, pick': nat -> bool)
    requires forall k: nat :: 0 < k <= |s| + |t| ==> pick(k) == pick'(k)
    ensures Merge(s, t, pick) == Merge(s, t, pick')
    decreases |s| + |t|
  {
    if s == [] && t == [] {
    } else if t == [] || (s != [] && pick(|s| + |t|)) {
      MergeDependsOnTurns(Front(s), t, pick, pick');
    } else {
      MergeDependsOnTurns(s, Front(t), pick, pick');
    }
  }

  /** Merge leaves nothing out: every interleaving comes about under some `pick`. */
  lemma {:induction false} EveryInterleavingIsAMerge(m: seq<Store>, s: seq<Store>, t: seq<Store>) returns (pick: nat -> bool)
    requires Interleaves(m, s, t)
    ensures Merge(s, t, pick) == m
    decreases |m|
  {
    if m == [] {
      pick := (k: nat) => true;
    } else {
      var fromS := s != [] && Last(s) == Last(m) && Interleaves(Front(m), Front(s), t);
      var s1, t1 := if fromS then Front(s) else s, if fromS then t else Front(t);
      var pick1 := EveryInterleavingIsAMerge(Front(m), s1, t1);
      var n := |s| + |t|;
      pick := (k: nat) => if k == n then fromS else pick1(k);
      MergeDependsOnTurns(s1, t1, pick, pick1);
    }
  }

  lemma {:induction false} MergeAlone(t: seq<Store>, pick: nat -> bool)
    ensures Merge([], t, pick) == t
    decreases |t|
  {
    if t != [] {
      hide Merge;
      LastOfMerge(t, pick);
      MergeAlone(Front(t), pick);
      assert t == Front(t) + [Last(t)];
    } else {
      assert |Merge([], t, pick)| == 0;
    }
  }

  lemma LastOfMerge(t: seq<Store>, pick: nat -> bool)
    requires t != []
    ensures Merge([], t, pick) == Merge([], Front(t), pick) + [Last(t)]
  {
  }

  lemma LastCounts(s: seq<Store>)
    requires s != []
    ensures multiset(s) == multiset(Front(s)) + multiset{Last(s)}
  {
    assert s == Front(s) + [Last(s)];
  }

  lemma {:induction false} MergeConserves(s: seq<Store>, t: seq<Store>, pick: nat -> bool)
    ensures multiset(Merge(s, t, pick)) == multiset(s) + multiset(t)
    decreases |s| + |t|
  {
    var m := Merge(s, t, pick);
    if s == [] && t == [] {
    } else if t == [] || (s != [] && pick(|s| + |t|)) {
      assert Front(m) == Merge(Front(s), t, pick) && Last(m) == Last(s);
      hide Merge;
      MergeConserves(Front(s), t, pick);
      LastCounts(m);
      LastCounts(s);
    } else {
      assert Front(m) == Merge(s, Front(t), pick) && Last(m) == Last(t);
      hide Merge;
      MergeConserves(s, Front(t), pick);
      LastCounts(m);
      LastCounts(t);
    }
  }

  lemma StoresConcat(a: int, s: seq<u32>, t: seq<u32>)
    ensures Stores(a, s + t) == Stores(a, s) + Stores(a + 4 * |s|, t)
  {
  }

  /** A segment's words all have addresses of their own. */
  lemma StoresAreDistinct(a: int, s: seq<u32>, i: nat, j: nat)
    requires i < |s| && j < |s| && i != j
    ensures Stores(a, s)[i].addr != Stores(a, s)[j].addr
  {
  }

  // ---- one segment -------------------------------------------------------------------

  /** A list of single writes: address, value, address, value; an odd word is ignored. */
  function HciStores(data: seq<u32>): seq<Store> {
    if |data| < 2 then [] else [Store(data[0], data[1])] + HciStores(data[2..])
  }

  /** The longest run the loader asks for: the buffer, capped for the memory, in whole frames. */
  function RunWords(a: u32, bufferWords: nat, frame: nat): (b: nat)
    requires frame > 0
    ensures b <= bufferWords && b % frame == 0
    ensures var most := Min(bufferWords, if UcRange(a, 1) then 65536 else 32768); b <= most < b + frame
  {
    var b := Min(bufferWords, if UcRange(a, 1) then 65536 else 32768);
    RemainderBound(b, frame);
    b - b % frame
  }

  /** What the driver itself stores of a segment: the words that do not fill a frame and the
      list of single writes. It does so while the first DMA run is under way. */
  function OwnStores(a: u32, data: seq<u32>, frame: nat, hci: seq<u32>): seq<Store>
    requires 0 < frame
  {
    RemainderBound(|data|, frame);
    Stores(a, data[..|data| % frame]) + HciStores(hci)
  }

  /** What the first DMA run stores, and what the later ones do. */
  function FirstRun(a: u32, data: seq<u32>, frame: nat, buffer: nat): seq<Store>
    requires 0 < frame
  {
    RemainderBound(|data|, frame);
    var r := |data| % frame;
    Stores(a + 4 * r, data[r..r + Min(buffer, |data| - r)])
  }

  function LaterRuns(a: u32, data: seq<u32>, frame: nat, buffer: nat): seq<Store>
    requires 0 < frame
  {
    RemainderBound(|data|, frame);
    var n := |data| % frame + Min(buffer, |data| - |data| % frame);
    Stores(a + 4 * n, data[n..])
  }

  /** What loading one data segment stores. Without a whole frame there is no DMA run, and
      then the list is not written either; otherwise `pick` says how the driver's stores
      and those of the first run interleave. */
  function SegmentLog(a: u32, data: seq<u32>, frame: nat, buffer: nat, hci: seq<u32>, pick: nat -> bool): seq<Store>
    requires 0 < frame
  {
    if |data| < frame then Stores(a, data)
    else Merge(OwnStores(a, data, frame, hci), FirstRun(a, data, frame, buffer), pick) + LaterRuns(a, data, frame, buffer)
  }

  /** The same with the words for the runs as one block of their own. */
  lemma SegmentLogInRuns(a: u32, data: seq<u32>, frame: nat, buffer: nat, hci: seq<u32>, pick: nat -> bool)
    requires 0 < frame
    ensures |data| % frame <= |data| && (|data| % frame == |data| <==> |data| < frame)
    ensures |data| < frame ==> SegmentLog(a, data, frame, buffer, hci, pick) == Stores(a, data)
    ensures |data| >= frame ==>
              var r := |data| % frame;
              var words := data[r..];
              var n := Min(buffer, |words|);
              SegmentLog(a, data, frame, buffer, hci, pick)
                == Merge(Stores(a, data[..r]) + HciStores(hci), Stores(a + 4 * r, words[..n]), pick) + Stores(a + 4 * r + 4 * n, words[n..])
  {
    hide Stores, HciStores, Merge;
    RemainderBound(|data|, frame);
    var r := |data| % frame;
    var n := Min(buffer, |data| - r);
    assert data[r..][..n] == data[r..r + n] && data[r..][n..] == data[r + n..];
  }

  lemma ThreeParts(a: u32, data: seq<u32>, r: nat, n: nat)
    requires r <= n <= |data|
    ensures Stores(a, data) == Stores(a, data[..r]) + Stores(a + 4 * r, data[r..n]) + Stores(a + 4 * n, data[n..])
  {
    hide Stores;
    assert data == data[..n] + data[n..] && data[..n] == data[..r] + data[r..n];
    StoresConcat(a, data[..n], data[n..]);
    StoresConcat(a, data[..r], data[r..n]);
  }

  lemma SegmentParts(a: u32, data: seq<u32>, frame: nat, buffer: nat)
    requires 0 < frame
    ensures Stores(a, data) == OwnStores(a, data, frame, []) + FirstRun(a, data, frame, buffer) + LaterRuns(a, data, frame, buffer)
  {
    RemainderBound(|data|, frame);
    var r := |data| % frame;
    ThreeParts(a, data, r, r + Min(buffer, |data| - r));
    assert HciStores([]) == [];
    hide Stores, HciStores;
    assert Stores(a, data[..r]) + [] == Stores(a, data[..r]);
  }

  lemma RemainderBound(n: nat, f: nat)
    requires f > 0
    ensures n % f <= n && n % f < f && (n < f ==> n % f == n) && (n >= f ==> n - n % f >= f)
    ensures (n - n % f) % f == 0
  {
    assert n == f * (n / f) + n % f;
    MultipleHasNoRemainder(n / f, f);
    if n < f {
      DivisionIsUnique(n, f, 0, n);
    } else {
      if n / f >= 1 {
        ProductAtLeast(f, n / f);
      }
    }
  }

  lemma SubtractFrames(n: nat, m: nat, f: nat)
    requires f > 0 && n % f == 0 && m % f == 0 && m <= n
    ensures (n - m) % f == 0
  {
    assert n == f * (n / f) && m == f * (m / f);
    assert n - m == f * (n / f - m / f);
    MultipleHasNoRemainder(n / f - m / f, f);
  }

  /** The single writes of a list reach the chip exactly when the segment behind the list
      holds at least one whole frame: only then does the loader enter the loop that issues
      them. (The list must not be empty for the difference to show.) */
  lemma ListWrittenIff(a: u32, data: seq<u32>, frame: nat, buffer: nat, hci: seq<u32>, pick: nat -> bool)
    requires 0 < frame && |hci| >= 2
    ensures |SegmentLog(a, data, frame, buffer, hci, pick)| == |data| + |HciStores(hci)| <==> |data| >= frame
  {
    RemainderBound(|data|, frame);
    assert HciStores(hci) != [];
  }

  /** One DMA run as the loader asked for it. */
  datatype RunInfo = RunInfo(addr: int, count: nat)

  /** The runs lead from address a0 to address a without a gap, each is made of whole
      frames, is no longer than `cap` words and lies in memory m. */
  ghost predicate RunsReach(runs: seq<RunInfo>, a0: int, a: int, frame: nat, cap: nat, m: Space)
    requires frame > 0
  {
    if runs == [] then
      a == a0
    else
      var r := Last(runs);
      && 0 <= r.addr < TWO_32 && r.addr + 4 * r.count == a
      && 0 < r.count <= cap && r.count % frame == 0 && Within(m, r.addr, r.count)
      && RunsReach(Front(runs), a0, r.addr, frame, cap, m)
  }

  datatype Err = OK | EINVAL | ENXIO | EBUSY

  /** The part of the codec the loader drives: the DMA engine's buffer, one channel of the
      DMA controller, and the chip's memory as the list of stores it has performed. */
  class Loader {
    var log: seq<Store>
    var codeSpace: bool
    var regs: Registers
    var stream: seq<u32>
    /** Is a run under way, and what has the driver stored since it started? */
    var active: bool
    var own: seq<Store>
    const bufferWords: nat
    const format: nat
    const aeLoader: bool

    constructor (bufferWords: nat, format: nat, aeLoader: bool)
      ensures log == [] && !active && this.bufferWords == bufferWords && this.format == format && this.aeLoader == aeLoader
    {
      log, codeSpace, stream, active, own := [], false, [], false, [];
      regs := Registers(0, 0, 0);
      this.bufferWords, this.format, this.aeLoader := bufferWords, format, aeLoader;
    }

    /** Stores by the driver itself; while a run is under way their place among the run's
        stores is not known yet. */
    method Put(stores: seq<Store>)
      modifies this`log, this`own
      ensures active ==> log == old(log) && own == old(own) + stores
      ensures !active ==> log == old(log) + stores && own == old(own)
    {
      if active {
        own := own + stores;
      } else {
        log := log + stores;
      }
    }

    /** chipio_write_multiple. */
    method WriteMultiple(a: u32, data: seq<u32>)
      modifies this`log, this`own
      ensures active ==> log == old(log) && own == old(own) + Stores(a, data)
      ensures !active ==> log == old(log) + Stores(a, data) && own == old(own)
    {
      Put(Stores(a, data));
    }

    /** dspxfr_hci_write. */
    method HciWrite(list: seq<u32>)
      modifies this`log, this`own
      ensures active ==> log == old(log) && own == old(own) + HciStores(list)
      ensures !active ==> log == old(log) + HciStores(list) && own == old(own)
    {
      var count, data := |list|, list;
      while count >= 2
        invariant count == |data|
        invariant active ==> log == old(log) && own + HciStores(data) == old(own) + HciStores(list)
        invariant !active ==> own == old(own) && log + HciStores(data) == old(log) + HciStores(list)
      {
        Put([Store(data[0], data[1])]);
        count, data := count - 2, data[2..];
      }
    }

    /** dsp_dma_setup_common: the channel's memory-space bit says code or data. */
    method DmaSetupCommon(a: u32) returns (err: Err)
      modifies this`codeSpace
      ensures err == (if ChipToDsp(a).BadAddress? then ENXIO else OK)
      ensures err == OK ==> codeSpace == ChipToDsp(a).space.Code?
    {
      var d := ChipToDsp(a);
      if d.BadAddress? {
        return ENXIO;
      }
      codeSpace := d.space.Code?;
      return OK;
    }

    /** dsp_dma_setup: the three register words, field by field. A run inside one memory that
        obeys the loader's cap is accepted, and the channel then decodes exactly its memory,
        word address and count, with the stride bit set for data memory only. */
    method DmaSetupRun(a: u32, count: nat) returns (err: Err)
      requires count > 0
      modifies this`regs
      ensures err == if count > MAX_DMA_COUNT then EINVAL else if ChipToDsp(a).BadAddress? then ENXIO else OK
      ensures err != OK ==> regs == old(regs)
      ensures err == OK ==> Ready(regs) == DmaSetup(a, count)
      ensures forall m :: Within(m, a, count) && count <= MaxRun(m) ==>
                && err == OK && DecodeRun(m.Code?, regs) == Run(m, (a - BaseOf(m)) / 4, count)
                && (Aincr(regs) == 0 <==> m.Code?) && Bofs(regs) == (count - 1) * (if m.Code? then 1 else 2)
    {
      forall m | Within(m, a, count) && count <= MaxRun(m)
        ensures DmaSetup(a, count).Ready?
        ensures var r := DmaSetup(a, count).regs;
                && DecodeRun(m.Code?, r) == Run(m, (a - BaseOf(m)) / 4, count)
                && (Aincr(r) == 0 <==> m.Code?) && Bofs(r) == (count - 1) * (if m.Code? then 1 else 2)
      {
        RegistersDecode(m, a, count);
      }
      hide DecodeRun, Dbadr, Aincr, Bofs, Bcnt, Ccnt, Within, ChipToDsp;
      if count > MAX_DMA_COUNT {
        return EINVAL;
      }
      var d := ChipToDsp(a);
      if d.BadAddress? {
        return ENXIO;
      }
      var addrField, incrField, shift := d.word, 0, 0x1_0000;
      if !d.space.Code? {
        addrField := addrField * 2;
        if d.space.YRam? {
          addrField := addrField + 1;
        }
        incrField, shift := 0x4_0000, 0x2_0000;
      }
      regs := regs.(dmacfg := (addrField + incrField) % TWO_32);
      regs := regs.(dspadrofs := (count - 1) * shift % TWO_32);
      var baseCnt, curCnt := (count - 1) * 0x1_0000 % TWO_32, (count - 1) % 0x1_0000;
      regs := regs.(xfrcnt := baseCnt + curCnt);
      err := OK;
    }

    /** What the hardware stores in the run just programmed; with the card's own loader the
        DSP programs the channel for the announced address instead. */
    function DmaStores(a: u32, count: nat): seq<Store>
      reads this
    {
      if aeLoader then RunStoresAt(a, count, stream) else RunStores(DecodeRun(codeSpace, regs), stream)
    }

    /** Program (or announce) and start one run: through registers that decode to exactly
        this run its words will land at their own addresses. */
    method StartRun(a: u32, run: seq<u32>, setupDone: bool, ghost m: Space) returns (err: Err)
      requires 0 < |run| <= MaxRun(m) && Within(m, a, |run|) && a % 4 == 0 && !active
      requires setupDone && !aeLoader ==> codeSpace == m.Code?
      modifies this`regs, this`codeSpace, this`stream, this`active, this`own
      ensures err == OK && active && own == [] && DmaStores(a, |run|) == Stores(a, run)
      ensures !aeLoader ==> codeSpace == m.Code?
    {
      hide Stores, RunStores, RunStoresAt, DecodeRun, BaseOf, Within, MaxRun, Aincr, Bofs, DmaSetup;
      stream := run;                                     // dma_xfer
      FitsMemory(m, a, |run|);
      RunLands(m, a, run);
      if !aeLoader {
        if !setupDone {
          err := DmaSetupCommon(a);
          if err != OK {
            return;
          }
        }
        err := DmaSetupRun(a, |run|);
        if err != OK {
          return;
        }
      }
      active, own, err := true, [], OK;
    }

    /** The run comes to its end: its stores and those of the driver since its start have
        happened in some order. */
    method CompleteRun(a: u32, count: nat, pick: nat -> bool)
      requires active
      modifies this`log, this`active, this`own
      ensures log == old(log) + Merge(old(own), old(DmaStores(a, count)), pick) && !active
    {
      log := log + Merge(own, DmaStores(a, count), pick);
      active, own := false, [];
    }

    /** One turn of the loop: a run from start to end. The remainder and the single writes go
        out while the first one is under way. */
    method OneRun(a: u32, run: seq<u32>, first: bool, remainderAddr: u32, remainder: seq<u32>, hci: seq<u32>,
                  pick: nat -> bool, ghost m: Space)
      returns (err: Err)
      requires 0 < |run| <= MaxRun(m) && Within(m, a, |run|) && a % 4 == 0 && !active
      requires !first && !aeLoader ==> codeSpace == m.Code?
      modifies this`log, this`regs, this`codeSpace, this`stream, this`active, this`own
      ensures err == OK && !active
      ensures log == old(log) +
                if first then Merge(Stores(remainderAddr, remainder) + HciStores(hci), Stores(a, run), pick) else Stores(a, run)
      ensures !aeLoader ==> codeSpace == m.Code?
    {
      hide Stores, HciStores, Merge, Within, MaxRun;
      err := StartRun(a, run, !first, m);
      if first {
        WriteMultiple(remainderAddr, remainder);
        HciWrite(hci);
        assert [] + Stores(remainderAddr, remainder) == Stores(remainderAddr, remainder);
      } else {
        MergeAlone(Stores(a, run), pick);
      }
      CompleteRun(a, |run|, pick);
    }

    /** The loop of dspxfr_one_seg: whole-frame runs until the words are used up. While the
        first one is under way the remainder and the single writes go out. */
    method TransferRuns(a0: u32, words: seq<u32>, frame: nat, buffer: nat, remainderAddr: u32, remainder: seq<u32>,
                        hci: seq<u32>, pick: nat -> bool, ghost m: Space)
      returns (err: Err, ghost runs: seq<RunInfo>)
      requires 0 < frame <= buffer <= MaxRun(m) && buffer % frame == 0 && |words| % frame == 0 && words != []
      requires a0 % 4 == 0 && Within(m, a0, |words|) && !active
      modifies this`log, this`regs, this`codeSpace, this`stream, this`active, this`own
      ensures err == OK && !active
      ensures var n := Min(buffer, |words|);
              log == old(log) + (Merge(Stores(remainderAddr, remainder) + HciStores(hci), Stores(a0, words[..n]), pick)
                                 + Stores(a0 + 4 * n, words[n..]))
      ensures RunsReach(runs, a0, a0 + 4 * |words|, frame, buffer, m)
    {
      hide Stores, HciStores, RunsReach, Transferred, LogSoFar, Within, FrameWords, Merge;
      runs, err := [], OK;
      var a: int, rest := a0, words;
      var first := true;
      ghost var n := Min(buffer, |words|);
      ghost var before := Stores(remainderAddr, remainder) + HciStores(hci);
      ghost var done := words[..0];
      NothingTransferred(words, a0, frame, buffer, m, before, n, pick);
      assert log + [] == log;
      while rest != []
        invariant Transferred(words, done, rest, a0, a, frame, buffer, m, runs)
        invariant first <==> done == []
        invariant done == [] || |done| >= n
        invariant log == old(log) + LogSoFar(before, a0, n, done, pick) && !active
        invariant !first && !aeLoader ==> codeSpace == m.Code?
        invariant err == OK
        decreases |rest|
      {
        var run := rest[..Min(buffer, |rest|)];
        TransferOne(words, done, rest, a0, a, frame, buffer, m, runs);
        ghost var soFar := LogSoFar(before, a0, n, done, pick);
        ghost var step := if first then Merge(before, Stores(a, run), pick) else Stores(a, run);
        err := OneRun(a, run, first, remainderAddr, remainder, hci, pick, m);
        LogGrows(before, a0, n, done, run, pick);
        assert (old(log) + soFar) + step == old(log) + (soFar + step);
        first := false;
        runs := runs + [RunInfo(a, |run|)];
        done := done + run;
        a, rest := a + 4 * |run|, rest[|run|..];
      }
      AllTransferred(words, done, a0, a, frame, buffer, m, runs, before, n, pick);
    }

    /** dspxfr_one_seg for a data segment, after an optional list of single writes. It
        refuses blocks outside the three memories and frames that do not fit the buffer;
        otherwise it terminates having stored every word of the segment at its own chip
        address exactly once. */
    method OneSegment(chipAddr: u32, data: seq<u32>, hci: seq<u32>, pick: nat -> bool)
      returns (err: Err, ghost runs: seq<RunInfo>, ghost m: Space)
      requires chipAddr % 4 == 0 && data != [] && chipAddr + 4 * |data| <= TWO_32 && !active
      modifies this`log, this`regs, this`codeSpace, this`stream, this`active, this`own
      ensures !active
      ensures err == if Loadable(chipAddr, |data|, bufferWords, format) then OK else EINVAL
      ensures err != OK ==> log == old(log)
      ensures err == OK ==>
                var frame := FrameWords(format);
                && log == old(log) + SegmentLog(chipAddr, data, frame, RunWords(chipAddr, bufferWords, frame), hci, pick)
                && Within(m, chipAddr, |data|)
                && RunsReach(runs, chipAddr + 4 * (|data| % frame), chipAddr + 4 * |data|, frame,
                             RunWords(chipAddr, bufferWords, frame), m)
    {
      hide FrameWords, Stores, HciStores, Within, Merge, RunWords, RunsReach, Loadable, SegmentLog;
      runs := [];
      var frame := FrameWords(format);
      var buffer;
      err, buffer, m := CheckSegment(chipAddr, |data|);
      if err != OK {
        return;
      }
      var remainder := |data| % frame;
      SegmentLogInRuns(chipAddr, data, frame, buffer, hci, pick);
      if remainder == |data| {
        assert data[..remainder] == data;
        WriteMultiple(chipAddr, data[..remainder]);
        NoRuns(chipAddr + 4 * remainder, frame, buffer, m);
        return;
      }
      var words := data[remainder..];
      WordsForRuns(m, chipAddr, data, frame);
      err, runs := TransferRuns(chipAddr + 4 * remainder, words, frame, buffer, chipAddr, data[..remainder], hci, pick, m);
    }

    /** The checks of dspxfr_one_seg, and the buffer rounded down to whole frames. */
    method CheckSegment(chipAddr: u32, n: nat) returns (err: Err, buffer: nat, ghost m: Space)
      requires n > 0 && chipAddr + 4 * n <= TWO_32
      ensures err == if Loadable(chipAddr, n, bufferWords, format) then OK else EINVAL
      ensures err == OK ==> Within(m, chipAddr, n) && 0 < FrameWords(format) <= buffer <= Min(bufferWords, MaxRun(m))
                            && buffer % FrameWords(format) == 0 && buffer == RunWords(chipAddr, bufferWords, FrameWords(format))
    {
      buffer, m := 0, Code;
      RangeTestsMeanOneMemory(chipAddr, n);
      if !UcRange(chipAddr, n) && !XRangeAll(chipAddr, n) && !YRangeAll(chipAddr, n) {
        return EINVAL, buffer, m;
      }
      m :| Within(m, chipAddr, n);
      var frame := FrameWords(format);
      if frame == 0 {
        return EINVAL, buffer, m;
      }
      TranslationNamesMemory(m, chipAddr);
      LoadableIff(chipAddr, n, bufferWords, format, m);
      buffer := Min(bufferWords, if UcRange(chipAddr, 1) then 65536 else 32768);
      RemainderBound(buffer, frame);
      buffer := buffer - buffer % frame;
      err := if buffer < frame then EINVAL else OK;
    }
  }

  lemma NoRuns(a: int, frame: nat, cap: nat, m: Space)
    requires frame > 0
    ensures RunsReach([], a, a, frame, cap, m)
  {
  }

  /** What is left for the runs starts on a word, is whole frames and lies in the memory. */
  lemma WordsForRuns(m: Space, a: u32, data: seq<u32>, frame: nat)
    requires 0 < frame <= |data| && Within(m, a, |data|) && a % 4 == 0 && a + 4 * |data| <= TWO_32
    ensures var r := |data| % frame;
            && r < |data| && |data[r..]| % frame == 0 && data[r..] != []
            && 0 <= a + 4 * r < TWO_32 && (a + 4 * r) % 4 == 0 && Within(m, a + 4 * r, |data[r..]|)
            && a + 4 * r + 4 * |data[r..]| == a + 4 * |data|
  {
    RemainderBound(|data|, frame);
    RestWithin(m, a, |data|, |data| % frame);
  }

  lemma RestWithin(m: Space, a: u32, n: nat, r: nat)
    requires Within(m, a, n) && r < n && a + 4 * n <= TWO_32
    ensures Within(m, a + 4 * r, n - r)
  {
  }

  /** Of the words for the runs, `done` are stored and `rest` still to come; `runs` is how
      they went. */
  ghost predicate Transferred(words: seq<u32>, done: seq<u32>, rest: seq<u32>, a0: u32, a: int,
                              frame: nat, buffer: nat, m: Space, runs: seq<RunInfo>)
  {
    && words == done + rest && a == a0 + 4 * |done|
    && frame > 0 && |rest| % frame == 0
    && RunsReach(runs, a0, a, frame, buffer, m)
  }

  lemma NothingTransferred(words: seq<u32>, a0: u32, frame: nat, buffer: nat, m: Space,
                           before: seq<Store>, n: nat, pick: nat -> bool)
    requires frame > 0 && |words| % frame == 0
    ensures Transferred(words, words[..0], words, a0, a0, frame, buffer, m, [])
    ensures LogSoFar(before, a0, n, words[..0], pick) == []
  {
  }

  lemma TransferOne(words: seq<u32>, done: seq<u32>, rest: seq<u32>, a0: u32, a: int,
                    frame: nat, buffer: nat, m: Space, runs: seq<RunInfo>)
    requires Transferred(words, done, rest, a0, a, frame, buffer, m, runs) && rest != []
    requires 0 < buffer && buffer % frame == 0 && a0 % 4 == 0 && Within(m, a0, |words|)
    ensures var n := Min(buffer, |rest|);
            && a == a0 + 4 * |done| && 0 <= a < TWO_32 && a % 4 == 0 && Within(m, a, n)
            && Transferred(words, done + rest[..n], rest[n..], a0, a + 4 * n, frame, buffer, m, runs + [RunInfo(a, n)])
  {
    var n := Min(buffer, |rest|);
    SubtractFrames(|rest|, n, frame);
    PartWithin(m, a0, |words|, |done|, n);
    assert done + rest == (done + rest[..n]) + rest[n..];
    RunsSnoc(runs, a0, a, n, frame, buffer, m);
  }

  lemma PartWithin(m: Space, a0: u32, n: nat, d: nat, k: nat)
    requires Within(m, a0, n) && d + k <= n && k > 0 && a0 % 4 == 0
    ensures 0 <= a0 + 4 * d < TWO_32 && (a0 + 4 * d) % 4 == 0 && Within(m, a0 + 4 * d, k)
  {
  }

  lemma RunsSnoc(runs: seq<RunInfo>, a0: int, a: int, n: nat, frame: nat, cap: nat, m: Space)
    requires frame > 0 && RunsReach(runs, a0, a, frame, cap, m)
    requires 0 <= a < TWO_32 && 0 < n <= cap && n % frame == 0 && Within(m, a, n)
    ensures RunsReach(runs + [RunInfo(a, n)], a0, a + 4 * n, frame, cap, m)
  {
    assert Front(runs + [RunInfo(a, n)]) == runs;
  }

  lemma AllTransferred(words: seq<u32>, done: seq<u32>, a0: u32, a: int, frame: nat, buffer: nat, m: Space,
                       runs: seq<RunInfo>, before: seq<Store>, n: nat, pick: nat -> bool)
    requires Transferred(words, done, [], a0, a, frame, buffer, m, runs) && words != [] && n == Min(buffer, |words|)
    ensures RunsReach(runs, a0, a0 + 4 * |words|, frame, buffer, m)
    ensures n <= |words|
    ensures LogSoFar(before, a0, n, done, pick)
         == Merge(before, Stores(a0, words[..n]), pick) + Stores(a0 + 4 * n, words[n..])
  {
    assert done == words;
  }

  /** The stores once the first `done` words of the runs have landed, n of them in the first
      run, during which the driver stored `before`. */
  function LogSoFar(before: seq<Store>, a0: u32, n: nat, done: seq<u32>, pick: nat -> bool): seq<Store> {
    if done == [] || |done| < n then []
    else Merge(before, Stores(a0, done[..n]), pick) + Stores(a0 + 4 * n, done[n..])
  }

  lemma LogGrows(before: seq<Store>, a0: u32, n: nat, done: seq<u32>, run: seq<u32>, pick: nat -> bool)
    requires run != [] && if done == [] then |run| == n else |done| >= n
    ensures LogSoFar(before, a0, n, done + run, pick) == LogSoFar(before, a0, n, done, pick) +
              if done == [] then Merge(before, Stores(a0, run), pick) else Stores(a0 + 4 * |done|, run)
  {
    hide Merge;
    if done == [] {
      FirstGrows(before, a0, run, pick);
      assert done + run == run;
    } else {
      LaterGrows(a0, n, done, run);
      hide Stores;
      var head := Merge(before, Stores(a0, done[..n]), pick);
      assert (head + Stores(a0 + 4 * n, done[n..])) + Stores(a0 + 4 * |done|, run)
          == head + (Stores(a0 + 4 * n, done[n..]) + Stores(a0 + 4 * |done|, run));
    }
  }

  lemma LaterGrows(a0: u32, n: nat, done: seq<u32>, run: seq<u32>)
    requires |done| >= n
    ensures (done + run)[..n] == done[..n]
    ensures Stores(a0 + 4 * n, (done + run)[n..]) == Stores(a0 + 4 * n, done[n..]) + Stores(a0 + 4 * |done|, run)
  {
    assert (done + run)[n..] == done[n..] + run;
    StoresConcat(a0 + 4 * n, done[n..], run);
  }

  lemma FirstGrows(before: seq<Store>, a0: u32, run: seq<u32>, pick: nat -> bool)
    requires run != []
    ensures LogSoFar(before, a0, |run|, run, pick) == Merge(before, Stores(a0, run), pick)
  {
    hide Merge;
    assert run[..|run|] == run && run[|run|..] == [];
    assert Stores(a0 + 4 * |run|, []) == [];
  }

  function RunStoresAt(a: u32, count: nat, stream: seq<u32>): seq<Store> {
    if count > |stream| then [] else Stores(a, stream[..count])
  }

  /** A run that lies in a memory, read back from its memory and word address. */
  lemma RunLands(m: Space, a: u32, run: seq<u32>)
    requires Within(m, a, |run|) && a % 4 == 0
    ensures RunStores(Run(m, (a - BaseOf(m)) / 4, |run|), run) == Stores(a, run)
    ensures RunStoresAt(a, |run|, run) == Stores(a, run)
  {
    assert run[..|run|] == run;
    assert BaseOf(m) + 4 * ((a - BaseOf(m)) / 4) == a;
  }

  lemma FitsMemory(m: Space, a: u32, n: nat)
    requires 0 < n <= MaxRun(m) && Within(m, a, n)
    ensures n <= MAX_DMA_COUNT && ChipToDsp(a).DspAddr? && ChipToDsp(a).space == m
  {
    TranslationNamesMemory(m, a);
  }

  /** What dspxfr_one_seg accepts: a block inside one memory, and a buffer that holds at
      least one frame. */
  ghost predicate Loadable(a: u32, n: nat, bufferWords: nat, format: nat) {
    exists m :: Within(m, a, n) && 0 < FrameWords(format) <= Min(bufferWords, MaxRun(m))
  }

  lemma LoadableIff(a: u32, n: nat, bufferWords: nat, format: nat, m: Space)
    requires n > 0 && Within(m, a, n) && FrameWords(format) > 0
    ensures var b := Min(bufferWords, MaxRun(m));
            Loadable(a, n, bufferWords, format) <==> b - b % FrameWords(format) >= FrameWords(format)
  {
    RemainderBound(Min(bufferWords, MaxRun(m)), FrameWords(format));
  }
}
