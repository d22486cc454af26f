/** Walking a DSP image: a run of segments, each with a three-word header (magic, chip
    address, word count), ended by a segment of count zero. A segment with a marker
    address holds a list of single writes and is handled together with its successor. */
module DspImage {
  import opened Words
  import opened DspDma
  import opened DspLoader

  const MAGIC: u32 := 0x4C46_584D
  const LIST_MARK: u32 := 0xFFFF_FF01

  function CountAt(img: seq<u32>, p: nat): u32
    requires p + 3 <= |img|
  {
    img[p + 2]
  }

  function AddrAt(img: seq<u32>, p: nat): u32
    requires p + 3 <= |img|
  {
    img[p + 1]
  }

  predicate HasData(img: seq<u32>, p: nat) {
    p + 3 <= |img| && p + 3 + CountAt(img, p) <= |img|
  }

  function DataAt(img: seq<u32>, p: nat): seq<u32>
    requires HasData(img, p)
  {
    img[p + 3..p + 3 + CountAt(img, p)]
  }

  /** get_next_seg_ptr. */
  function NextAt(img: seq<u32>, p: nat): nat
    requires HasData(img, p)
  {
    p + 3 + CountAt(img, p)
  }

  /** The firmware is complete up to its terminator, data blocks are word-aligned and do not
      wrap around the address space, and a list is not followed by another list. */
  predicate WellFormed(img: seq<u32>, p: nat)
    decreases |img| - p
  {
    && HasData(img, p)
    && (CountAt(img, p) == 0 ||
        if AddrAt(img, p) == LIST_MARK then
          var q := NextAt(img, p);
          HasData(img, q) && (CountAt(img, q) == 0 || (BlockOk(img, q) && WellFormed(img, NextAt(img, q))))
        else
          BlockOk(img, p) && WellFormed(img, NextAt(img, p)))
  }

  predicate BlockOk(img: seq<u32>, p: nat)
    requires HasData(img, p)
  {
    AddrAt(img, p) != LIST_MARK && AddrAt(img, p) % 4 == 0 && AddrAt(img, p) + 4 * CountAt(img, p) <= TWO_32
  }

  ghost predicate BlockLoadable(img: seq<u32>, p: nat, bufferWords: nat, format: nat)
    requires HasData(img, p)
  {
    Loadable(AddrAt(img, p), CountAt(img, p), bufferWords, format)
  }

  /** The stores of the block at q, loaded together with a list of single writes. */
  function BlockLog(img: seq<u32>, q: nat, hci: seq<u32>, bufferWords: nat, format: nat, pick: nat -> nat -> bool): seq<Store>
    requires HasData(img, q) && FrameWords(format) > 0
  {
    var a, frame := AddrAt(img, q), FrameWords(format);
    SegmentLog(a, DataAt(img, q), frame, RunWords(a, bufferWords, frame), hci, pick(q))
  }

  /** What dspxfr_image does from segment p on: the stores, and whether it got through. It
      stops at the first segment with a wrong magic number or a block it cannot load.
      pick(q) says how the stores of the block at q interleave. */
  ghost function ImageLog(img: seq<u32>, p: nat, bufferWords: nat, format: nat, pick: nat -> nat -> bool): (seq<Store>, bool)
    requires WellFormed(img, p) && FrameWords(format) > 0
    decreases |img| - p
  {
    if CountAt(img, p) == 0 then
      ([], true)
    else if img[p] != MAGIC then
      ([], false)
    else if AddrAt(img, p) == LIST_MARK then
      var q := NextAt(img, p);
      if CountAt(img, q) == 0 then
        (HciStores(DataAt(img, p)), true)
      else if !BlockLoadable(img, q, bufferWords, format) then
        ([], false)
      else
        var (rest, ok) := ImageLog(img, NextAt(img, q), bufferWords, format, pick);
        (BlockLog(img, q, DataAt(img, p), bufferWords, format, pick) + rest, ok)
    else if !BlockLoadable(img, p, bufferWords, format) then
      ([], false)
    else
      var (rest, ok) := ImageLog(img, NextAt(img, p), bufferWords, format, pick);
      (BlockLog(img, p, [], bufferWords, format, pick) + rest, ok)
  }

  /** Where the loop of dspxfr_image meets a segment, up to the terminator: the block behind
      a list is passed together with it. */
  function Heads(img: seq<u32>, p: nat): (hs: seq<nat>)
    requires WellFormed(img, p)
    ensures forall i :: 0 <= i < |hs| ==> WellFormed(img, hs[i]) && CountAt(img, hs[i]) != 0
    decreases |img| - p
  {
    if CountAt(img, p) == 0 then []
    else
      var q := BlockOf(img, p);
      [p] + Heads(img, if CountAt(img, q) == 0 then q else NextAt(img, q))
  }

  /** The block that is loaded together with the segment at p: the segment itself, or what
      comes behind a list. */
  function BlockOf(img: seq<u32>, p: nat): (q: nat)
    requires WellFormed(img, p) && CountAt(img, p) != 0
    ensures HasData(img, q) && (CountAt(img, q) != 0 ==> WellFormed(img, NextAt(img, q)))
  {
    if AddrAt(img, p) == LIST_MARK then NextAt(img, p) else p
  }

  /** A segment the loader accepts: it carries the magic number, and its block (if it is not
      the terminator) lies in one memory with a buffer that holds a frame. */
  ghost predicate HeadLoads(img: seq<u32>, h: nat, bufferWords: nat, format: nat)
    requires WellFormed(img, h) && CountAt(img, h) != 0
  {
    var q := BlockOf(img, h);
    img[h] == MAGIC && (CountAt(img, q) == 0 || Loadable(AddrAt(img, q), CountAt(img, q), bufferWords, format))
  }

  ghost predicate AllLoad(img: seq<u32>, p: nat, bufferWords: nat, format: nat)
    requires WellFormed(img, p)
  {
    forall i :: 0 <= i < |Heads(img, p)| ==> HeadLoads(img, Heads(img, p)[i], bufferWords, format)
  }

  lemma AllLoadStep(img: seq<u32>, p: nat, bufferWords: nat, format: nat)
    requires WellFormed(img, p) && CountAt(img, p) != 0
    ensures var q := BlockOf(img, p);
            AllLoad(img, p, bufferWords, format) <==>
              HeadLoads(img, p, bufferWords, format)
              && AllLoad(img, if CountAt(img, q) == 0 then q else NextAt(img, q), bufferWords, format)
  {
    hide HeadLoads;
    var q := BlockOf(img, p);
    var rest := Heads(img, if CountAt(img, q) == 0 then q else NextAt(img, q));
    var hs := Heads(img, p);
    assert hs == [p] + rest;
    hide Heads, BlockOf;
    assert hs[0] == p;
    if HeadLoads(img, p, bufferWords, format) && forall i :: 0 <= i < |rest| ==> HeadLoads(img, rest[i], bufferWords, format) {
      forall i | 0 <= i < |hs|
        ensures HeadLoads(img, hs[i], bufferWords, format)
      {
        assert i > 0 ==> hs[i] == rest[i - 1];
      }
    }
    if AllLoad(img, p, bufferWords, format) {
      forall i | 0 <= i < |rest|
        ensures HeadLoads(img, rest[i], bufferWords, format)
      {
        assert rest[i] == hs[i + 1];
      }
    }
  }

  /** The loader gets through an image exactly when it accepts every segment it meets. */
  lemma {:induction false} GetsThroughIff(img: seq<u32>, p: nat, bufferWords: nat, format: nat, pick: nat -> nat -> bool)
    requires WellFormed(img, p) && FrameWords(format) > 0
    ensures ImageLog(img, p, bufferWords, format, pick).1 <==> AllLoad(img, p, bufferWords, format)
    decreases |img| - p
  {
    hide BlockLog, Loadable, FrameWords, AllLoad;
    if CountAt(img, p) == 0 {
      NothingToLoad(img, p, bufferWords, format);
    } else {
      AllLoadStep(img, p, bufferWords, format);
      var q := BlockOf(img, p);
      if CountAt(img, q) == 0 {
        NothingToLoad(img, q, bufferWords, format);
      } else {
        GetsThroughIff(img, NextAt(img, q), bufferWords, format, pick);
      }
    }
  }

  lemma NothingToLoad(img: seq<u32>, p: nat, bufferWords: nat, format: nat)
    requires HasData(img, p) && CountAt(img, p) == 0
    ensures WellFormed(img, p) && AllLoad(img, p, bufferWords, format)
  {
  }

  /** dspxfr_image: terminates on every well-formed image, and gets through exactly when
      every segment on the way is acceptable; it has then done every store of the image once
      and left the memory that the plain program of stores leaves. */
  method LoadImage(l: Loader, img: seq<u32>, pick: nat -> nat -> bool) returns (ok: bool)
    requires WellFormed(img, 0) && FrameWords(l.format) > 0 && !l.active
    modifies l
    ensures var (log, done) := ImageLog(img, 0, l.bufferWords, l.format, pick);
            l.log == old(l.log) + log && ok == done
    ensures ok <==> AllLoad(img, 0, l.bufferWords, l.format)
    ensures ok ==> multiset(l.log) == multiset(old(l.log)) + multiset(PlainLog(img, 0, FrameWords(l.format)))
    ensures ok && ListsStayClear(img, 0, FrameWords(l.format)) ==>
              forall mem: map<int, u32> ::
                ApplyStores(mem, l.log) == ApplyStores(ApplyStores(mem, old(l.log)), PlainLog(img, 0, FrameWords(l.format)))
  {
    hide AllLoad, PlainLog, ListsStayClear, ApplyStores, SegmentLog, HciStores, FrameWords, Loadable, RunWords;
    var p := 0;
    ok := true;
    ghost var soFar := [];
    ghost var (all, done) := ImageLog(img, 0, l.bufferWords, l.format, pick);
    GetsThroughIff(img, 0, l.bufferWords, l.format, pick);
    WhatALoadDoes(old(l.log), img, l.bufferWords, l.format, pick);
    assert soFar + all == all;
    while CountAt(img, p) != 0
      invariant WellFormed(img, p) && ok && !l.active
      invariant l.log == old(l.log) + soFar
      invariant var (rest, d) := ImageLog(img, p, l.bufferWords, l.format, pick); all == soFar + rest && done == d
      decreases |img| - p
    {
      ghost var rest := ImageLog(img, p, l.bufferWords, l.format, pick).0;
      ghost var was := l.log;
      if img[p] != MAGIC {
        return false;
      }
      ghost var next;
      ok, p, next := LoadStep(l, img, p, pick);
      if !ok {
        return;
      }
      Regroup(old(l.log), soFar, l.log[|was|..], ImageLog(img, p, l.bufferWords, l.format, pick).0);
      soFar := soFar + l.log[|was|..];
    }
  }

  /** One turn of the loop: a list with its successor, or a single data segment. */
  method LoadStep(l: Loader, img: seq<u32>, p: nat, pick: nat -> nat -> bool) returns (ok: bool, next: nat, ghost err: Err)
    requires WellFormed(img, p) && CountAt(img, p) != 0 && img[p] == MAGIC && FrameWords(l.format) > 0 && !l.active
    modifies l
    ensures old(l.log) <= l.log && !l.active
    ensures ok <==> HeadLoads(img, p, l.bufferWords, l.format)
    ensures !ok ==> l.log == old(l.log) && ImageLog(img, p, l.bufferWords, l.format, pick) == ([], false)
    ensures ok ==> WellFormed(img, next) && next > p
    ensures ok ==> var (rest, d) := ImageLog(img, next, l.bufferWords, l.format, pick);
                   ImageLog(img, p, l.bufferWords, l.format, pick) == (l.log[|old(l.log)|..] + rest, d)
  {
    hide SegmentLog, HciStores, FrameWords, Loadable, RunWords;
    var hci, q := [], p;
    if AddrAt(img, p) == LIST_MARK {
      hci, q := DataAt(img, p), NextAt(img, p);
      if CountAt(img, q) == 0 {
        ghost var was := l.log;
        l.HciWrite(hci);
        assert l.log[|was|..] + [] == HciStores(hci);
        return true, q, OK;
      }
    }
    ghost var runs, m;
    var e;
    e, runs, m := l.OneSegment(AddrAt(img, q), DataAt(img, q), hci, pick(q));
    return e == OK, NextAt(img, q), e;
  }

  lemma Regroup(before: seq<Store>, soFar: seq<Store>, step: seq<Store>, rest: seq<Store>)
    ensures (before + soFar) + step == before + (soFar + step)
    ensures soFar + (step + rest) == (soFar + step) + rest
  {
  }

  // ---- the plain meaning of an image ---------------------------------------------------

  /** The image read as a program of stores: lists and blocks in file order, without the
      lists that are not issued because their block holds no frame (see ListWrittenIff). */
  function PlainLog(img: seq<u32>, p: nat, frame: nat): seq<Store>
    requires WellFormed(img, p)
    decreases |img| - p
  {
    if CountAt(img, p) == 0 then
      []
    else if AddrAt(img, p) == LIST_MARK then
      var q := NextAt(img, p);
      if CountAt(img, q) == 0 then HciStores(DataAt(img, p))
      else Issued(img, p, frame) + Stores(AddrAt(img, q), DataAt(img, q)) + PlainLog(img, NextAt(img, q), frame)
    else
      Stores(AddrAt(img, p), DataAt(img, p)) + PlainLog(img, NextAt(img, p), frame)
  }

  /** What is issued of the list at p, in front of a block. */
  function Issued(img: seq<u32>, p: nat, frame: nat): seq<Store>
    requires HasData(img, p) && HasData(img, NextAt(img, p))
  {
    if CountAt(img, NextAt(img, p)) >= frame then HciStores(DataAt(img, p)) else []
  }

  /** No list that is issued writes into the block that it is loaded together with. */
  predicate ListsStayClear(img: seq<u32>, p: nat, frame: nat)
    requires WellFormed(img, p)
    decreases |img| - p
  {
    CountAt(img, p) == 0 ||
    if AddrAt(img, p) == LIST_MARK then
      var q := NextAt(img, p);
      CountAt(img, q) == 0 ||
      (Disjoint(Issued(img, p, frame), Stores(AddrAt(img, q), DataAt(img, q))) && ListsStayClear(img, NextAt(img, q), frame))
    else
      ListsStayClear(img, NextAt(img, p), frame)
  }

  /** A segment's stores are the block's and, if the block holds a frame, the list's, each once. */
  lemma SegmentConserves(a: u32, data: seq<u32>, frame: nat, buffer: nat, hci: seq<u32>, pick: nat -> bool)
    requires frame > 0
    ensures multiset(SegmentLog(a, data, frame, buffer, hci, pick))
         == multiset(if |data| >= frame then HciStores(hci) else []) + multiset(Stores(a, data))
  {
    NoStores();
    hide Stores, HciStores, Merge, FirstRun, LaterRuns;
    if |data| >= frame {
      SegmentParts(a, data, frame, buffer);
      MergeConserves(OwnStores(a, data, frame, hci), FirstRun(a, data, frame, buffer), pick);
    }
  }

  /** Conservation: a load that gets through performs every store of the image exactly once. */
  lemma {:induction false} ImageConserves(img: seq<u32>, p: nat, bufferWords: nat, format: nat, pick: nat -> nat -> bool)
    requires WellFormed(img, p) && FrameWords(format) > 0
    requires ImageLog(img, p, bufferWords, format, pick).1
    ensures multiset(ImageLog(img, p, bufferWords, format, pick).0) == multiset(PlainLog(img, p, FrameWords(format)))
    decreases |img| - p
  {
    hide SegmentLog, HciStores, FrameWords, Loadable, Stores, RunWords;
    var frame := FrameWords(format);
    if CountAt(img, p) == 0 {
    } else if AddrAt(img, p) == LIST_MARK {
      var q := NextAt(img, p);
      if CountAt(img, q) != 0 {
        SegmentConserves(AddrAt(img, q), DataAt(img, q), frame, RunWords(AddrAt(img, q), bufferWords, frame), DataAt(img, p), pick(q));
        ImageConserves(img, NextAt(img, q), bufferWords, format, pick);
      }
    } else {
      assert HciStores([]) == [] by { NoStores(); }
      SegmentConserves(AddrAt(img, p), DataAt(img, p), frame, RunWords(AddrAt(img, p), bufferWords, frame), [], pick(p));
      ImageConserves(img, NextAt(img, p), bufferWords, format, pick);
    }
  }

  lemma NoStores()
    ensures HciStores([]) == []
  {
  }

  /** However the first DMA run interleaves with the remainder and the list, the segment
      leaves memory as if the list and then the block had been stored word by word. */
  lemma SegmentMemory(mem: map<int, u32>, a: u32, data: seq<u32>, frame: nat, buffer: nat, hci: seq<u32>, m: seq<Store>)
    requires frame > 0 && Disjoint(HciStores(hci), Stores(a, data))
    requires Interleaves(m, OwnStores(a, data, frame, hci), FirstRun(a, data, frame, buffer))
    ensures ApplyStores(mem, m + LaterRuns(a, data, frame, buffer)) == ApplyStores(mem, HciStores(hci) + Stores(a, data))
  {
    var s, h := Remainder(a, data, frame), HciStores(hci);
    var first, later := FirstRun(a, data, frame, buffer), LaterRuns(a, data, frame, buffer);
    PartsOfSegment(a, data, frame, buffer, hci);
    hide ApplyStores, HciStores, Stores, Interleaves, Disjoint, FirstRun, LaterRuns, OwnStores, Remainder;
    InterleavingIsHarmless(mem, m, s + h, first);
    ApplyConcat(mem, m, later);
    ApplyConcat(mem, s + h + first, later);
    SwapFront(mem, s, h, first + later);
    assert (s + h + first) + later == s + h + (first + later);
    assert s + (first + later) == s + first + later;
  }

  function Remainder(a: u32, data: seq<u32>, frame: nat): seq<Store>
    requires frame > 0
  {
    RemainderBound(|data|, frame);
    Stores(a, data[..|data| % frame])
  }

  lemma PartsOfSegment(a: u32, data: seq<u32>, frame: nat, buffer: nat, hci: seq<u32>)
    requires frame > 0 && Disjoint(HciStores(hci), Stores(a, data))
    ensures var s, h, first := Remainder(a, data, frame), HciStores(hci), FirstRun(a, data, frame, buffer);
            && OwnStores(a, data, frame, hci) == s + h
            && Stores(a, data) == s + first + LaterRuns(a, data, frame, buffer)
            && Disjoint(h, s) && Disjoint(s + h, first)
  {
    var s, h := Remainder(a, data, frame), HciStores(hci);
    var first, later := FirstRun(a, data, frame, buffer), LaterRuns(a, data, frame, buffer);
    SegmentParts(a, data, frame, buffer);
    NoStores();
    assert s + [] == s;
    RestIsElsewhere(a, data, frame, buffer);
    hide HciStores, Stores, FirstRun, LaterRuns, Remainder;
    assert Stores(a, data) == s + first + later;
    PartsAreClear(h, s, first, later);
  }

  lemma PartsAreClear(h: seq<Store>, s: seq<Store>, first: seq<Store>, later: seq<Store>)
    requires Disjoint(h, s + first + later)
    ensures Disjoint(h, s) && Disjoint(h, first)
  {
    forall i, j | 0 <= i < |h| && 0 <= j < |s| ensures h[i].addr != s[j].addr {
      assert s[j] == (s + first + later)[j];
    }
    forall i, j | 0 <= i < |h| && 0 <= j < |first| ensures h[i].addr != first[j].addr {
      assert first[j] == (s + first + later)[|s| + j];
    }
  }

  /** The remainder and the first run have no address in common. */
  lemma RestIsElsewhere(a: u32, data: seq<u32>, frame: nat, buffer: nat)
    requires frame > 0
    ensures Disjoint(Remainder(a, data, frame), FirstRun(a, data, frame, buffer))
  {
    RemainderBound(|data|, frame);
  }

  /** So whatever the schedule, a segment leaves the memory of its list, if it is issued, and
      its block. */
  lemma SegmentLogMemory(mem: map<int, u32>, a: u32, data: seq<u32>, frame: nat, buffer: nat, hci: seq<u32>, pick: nat -> bool)
    requires frame > 0 && Disjoint(if |data| >= frame then HciStores(hci) else [], Stores(a, data))
    ensures ApplyStores(mem, SegmentLog(a, data, frame, buffer, hci, pick))
         == ApplyStores(mem, (if |data| >= frame then HciStores(hci) else []) + Stores(a, data))
  {
    if |data| >= frame {
      hide ApplyStores, HciStores, Stores, Interleaves, Disjoint, FirstRun, LaterRuns, OwnStores, Merge;
      var own, first := OwnStores(a, data, frame, hci), FirstRun(a, data, frame, buffer);
      MergeInterleaves(own, first, pick);
      SegmentMemory(mem, a, data, frame, buffer, hci, Merge(own, first, pick));
    } else {
      assert [] + Stores(a, data) == Stores(a, data);
    }
  }

  lemma SwapFront(mem: map<int, u32>, s: seq<Store>, h: seq<Store>, t: seq<Store>)
    requires Disjoint(h, s)
    ensures ApplyStores(mem, s + h + t) == ApplyStores(mem, h + (s + t))
  {
    hide ApplyStores, Disjoint;
    DisjointCommute(mem, h, s);
    ApplyConcat(mem, s + h, t);
    ApplyConcat(mem, h + s, t);
    assert h + (s + t) == (h + s) + t;
  }

  lemma BlockAlone(mem: map<int, u32>, img: seq<u32>, p: nat, bufferWords: nat, format: nat, pick: nat -> nat -> bool)
    requires HasData(img, p) && FrameWords(format) > 0
    ensures ApplyStores(mem, BlockLog(img, p, [], bufferWords, format, pick)) == ApplyStores(mem, Stores(AddrAt(img, p), DataAt(img, p)))
  {
    hide SegmentLog, FrameWords, RunWords, Stores, ApplyStores;
    NoStores();
    SegmentLogMemory(mem, AddrAt(img, p), DataAt(img, p), FrameWords(format),
                     RunWords(AddrAt(img, p), bufferWords, FrameWords(format)), [], pick(p));
    assert [] + Stores(AddrAt(img, p), DataAt(img, p)) == Stores(AddrAt(img, p), DataAt(img, p));
  }

  /** The main result on images: a load that gets through leaves memory equal to the plain
      fold over lists and segments in file order. */
  lemma {:induction false} ImageLoadsPlainly(mem: map<int, u32>, img: seq<u32>, p: nat, bufferWords: nat, format: nat,
                                               pick: nat -> nat -> bool)
    requires WellFormed(img, p) && FrameWords(format) > 0
    requires ImageLog(img, p, bufferWords, format, pick).1 && ListsStayClear(img, p, FrameWords(format))
    ensures ApplyStores(mem, ImageLog(img, p, bufferWords, format, pick).0) == ApplyStores(mem, PlainLog(img, p, FrameWords(format)))
    decreases |img| - p
  {
    hide SegmentLog, HciStores, FrameWords, Loadable, Stores, ApplyStores, Disjoint, RunWords;
    var frame := FrameWords(format);
    if CountAt(img, p) == 0 {
    } else if AddrAt(img, p) == LIST_MARK {
      var q := NextAt(img, p);
      if CountAt(img, q) != 0 {
        var list, block := Issued(img, p, frame), Stores(AddrAt(img, q), DataAt(img, q));
        var seg := BlockLog(img, q, DataAt(img, p), bufferWords, format, pick);
        SegmentLogMemory(mem, AddrAt(img, q), DataAt(img, q), frame, RunWords(AddrAt(img, q), bufferWords, frame), DataAt(img, p), pick(q));
        ImageLoadsPlainly(ApplyStores(mem, seg), img, NextAt(img, q), bufferWords, format, pick);
        ApplyConcat(mem, seg, ImageLog(img, NextAt(img, q), bufferWords, format, pick).0);
        ApplyConcat(mem, list + block, PlainLog(img, NextAt(img, q), frame));
      }
    } else {
      var seg, block := BlockLog(img, p, [], bufferWords, format, pick), Stores(AddrAt(img, p), DataAt(img, p));
      BlockAlone(mem, img, p, bufferWords, format, pick);
      ImageLoadsPlainly(ApplyStores(mem, seg), img, NextAt(img, p), bufferWords, format, pick);
      ApplyConcat(mem, seg, ImageLog(img, NextAt(img, p), bufferWords, format, pick).0);
      ApplyConcat(mem, block, PlainLog(img, NextAt(img, p), frame));
    }
  }

  /** A load that gets through, seen from the stores before it. */
  lemma WhatALoadDoes(before: seq<Store>, img: seq<u32>, bufferWords: nat, format: nat, pick: nat -> nat -> bool)
    requires WellFormed(img, 0) && FrameWords(format) > 0
    ensures var (log, ok) := ImageLog(img, 0, bufferWords, format, pick);
            var frame := FrameWords(format);
            ok ==>
              && multiset(before + log) == multiset(before) + multiset(PlainLog(img, 0, frame))
              && (ListsStayClear(img, 0, frame) ==>
                    forall mem: map<int, u32> :: ApplyStores(mem, before + log) == ApplyStores(ApplyStores(mem, before), PlainLog(img, 0, frame)))
  {
    hide ImageLog, PlainLog, ApplyStores, FrameWords, ListsStayClear;
    var (log, ok) := ImageLog(img, 0, bufferWords, format, pick);
    if ok {
      ImageConserves(img, 0, bufferWords, format, pick);
      if ListsStayClear(img, 0, FrameWords(format)) {
        forall mem: map<int, u32>
          ensures ApplyStores(mem, before + log) == ApplyStores(ApplyStores(mem, before), PlainLog(img, 0, FrameWords(format)))
        {
          ApplyConcat(mem, before, log);
          ImageLoadsPlainly(ApplyStores(mem, before), img, 0, bufferWords, format, pick);
        }
      }
    }
  }

  // ---- the AE-9 output overlay -----------------------------------------------------------

  const CODE_PATCH: u32 := 0xB_7B10
  const TABLE: u32 := 0x3_F3A0
  const TABLE_HEAD: u32 := 0x0080_0082

  /** The overlay file: 78 words of code patches and a 21-word jump table. */
  predicate IsOverlay(img: seq<u32>) {
    && |img| == 108
    && img[0] == MAGIC && img[1] == CODE_PATCH && img[2] == 78
    && img[81] == MAGIC && img[82] == TABLE && img[83] == 21
    && img[107] == 0
  }

  /** The image rebuilt for the DSP's own loader: the table without its first word, which
      the driver writes by itself afterwards. */
  function Rebuilt(img: seq<u32>): seq<u32>
    requires |img| == 108
  {
    img[..81] + [MAGIC, TABLE + 4, 20] + img[85..105] + [MAGIC, 0xEFBE_ADDE, 0]
  }

  lemma OverlayLog(img: seq<u32>, frame: nat)
    requires IsOverlay(img)
    ensures WellFormed(img, 0)
    ensures PlainLog(img, 0, frame) == Stores(CODE_PATCH, img[3..81]) + Stores(TABLE, img[84..105])
  {
    assert CountAt(img, 105) == 0 && PlainLog(img, 105, frame) == [];
    assert NextAt(img, 81) == 105 && WellFormed(img, 81);
    assert NextAt(img, 0) == 81;
    assert PlainLog(img, 81, frame) == Stores(TABLE, img[84..105]) + [];
  }

  lemma RebuiltLog(img: seq<u32>, frame: nat)
    requires IsOverlay(img)
    ensures WellFormed(Rebuilt(img), 0)
    ensures PlainLog(Rebuilt(img), 0, frame) == Stores(CODE_PATCH, img[3..81]) + Stores(TABLE + 4, img[85..105])
  {
    var ld := Rebuilt(img);
    assert CountAt(ld, 104) == 0 && PlainLog(ld, 104, frame) == [];
    assert ld[83] == 20 && ld[84..104] == img[85..105];
    assert DataAt(ld, 81) == ld[84..104];
    assert NextAt(ld, 81) == 104 && WellFormed(ld, 81) && DataAt(ld, 81) == img[85..105];
    assert NextAt(ld, 0) == 81 && DataAt(ld, 0) == img[3..81];
    assert PlainLog(ld, 81, frame) == Stores(TABLE + 4, img[85..105]) + [];
  }

  lemma PlainOverlaysAgreeIff(mem: map<int, u32>, img: seq<u32>, frame: nat)
    requires IsOverlay(img) && WellFormed(img, 0) && WellFormed(Rebuilt(img), 0)
    ensures ApplyStores(mem, PlainLog(Rebuilt(img), 0, frame) + [Store(TABLE, TABLE_HEAD)]) == ApplyStores(mem, PlainLog(img, 0, frame))
        <==> img[84] == TABLE_HEAD
  {
    OverlayLog(img, frame);
    RebuiltLog(img, frame);
    var code, tail, head := Stores(CODE_PATCH, img[3..81]), Stores(TABLE + 4, img[85..105]), Store(TABLE, img[84]);
    assert img[84..105] == [img[84]] + img[85..105];
    StoresConcat(TABLE, [img[84]], img[85..105]);
    assert Stores(TABLE, [img[84]]) == [head];
    var base := ApplyStores(mem, code);
    ApplyConcat(mem, code, [head] + tail);
    DisjointCommute(base, [head], tail);
    LastStoreWins(base, tail, head);
    ApplyConcat(mem, code, tail);
    LastStoreWins(mem, code + tail, Store(TABLE, TABLE_HEAD));
  }

  /** Both overlay images load: they have no lists, and their blocks lie in one memory. */
  lemma OverlaysLoad(img: seq<u32>, bufferWords: nat, format: nat, pick: nat -> nat -> bool)
    requires IsOverlay(img) && 0 < FrameWords(format) <= Min(bufferWords, 32768)
    ensures WellFormed(img, 0) && ImageLog(img, 0, bufferWords, format, pick).1
    ensures ListsStayClear(img, 0, FrameWords(format))
  {
    OverlayLog(img, FrameWords(format));
    hide FrameWords, BlockLog;
    assert Within(Code, CODE_PATCH, 78) && Within(XRam, TABLE, 21);
    assert NextAt(img, 81) == 105 && NextAt(img, 0) == 81;
    assert ImageLog(img, 105, bufferWords, format, pick) == ([], true);
    assert ListsStayClear(img, 105, FrameWords(format));
    assert ImageLog(img, 81, bufferWords, format, pick).1;
  }

  lemma RebuiltLoads(img: seq<u32>, bufferWords: nat, format: nat, pick: nat -> nat -> bool)
    requires IsOverlay(img) && 0 < FrameWords(format) <= Min(bufferWords, 32768)
    ensures var ld := Rebuilt(img);
            && WellFormed(ld, 0) && ImageLog(ld, 0, bufferWords, format, pick).1
            && ListsStayClear(ld, 0, FrameWords(format))
  {
    RebuiltLog(img, FrameWords(format));
    var ld := Rebuilt(img);
    hide FrameWords, BlockLog;
    assert Within(Code, CODE_PATCH, 78) && Within(XRam, TABLE + 4, 20);
    assert ld[0] == MAGIC && ld[1] == CODE_PATCH && ld[2] == 78 && ld[81] == MAGIC && ld[82] == TABLE + 4 && ld[83] == 20;
    assert NextAt(ld, 81) == 104 && NextAt(ld, 0) == 81 && CountAt(ld, 104) == 0;
    hide Rebuilt;
    assert ImageLog(ld, 104, bufferWords, format, pick) == ([], true);
    assert ListsStayClear(ld, 104, FrameWords(format));
    assert ImageLog(ld, 81, bufferWords, format, pick).1;
  }

  /** ae9_dsp_scp_startup loads the overlay a second time through the rebuilt image and then
      writes the table's first word itself. With a buffer that holds a frame both loads get
      through, and from any memory and under any schedules they leave the same memory if and
      only if the overlay's table begins with the word the driver writes. */
  lemma RebuiltOverlayEquivalentIff(mem: map<int, u32>, img: seq<u32>, bufferWords: nat, format: nat,
                                    pick: nat -> nat -> bool, pick': nat -> nat -> bool)
    requires IsOverlay(img) && 0 < FrameWords(format) <= Min(bufferWords, 32768)
    ensures WellFormed(img, 0) && WellFormed(Rebuilt(img), 0)
    ensures var (log, ok) := ImageLog(img, 0, bufferWords, format, pick);
            var (log', ok') := ImageLog(Rebuilt(img), 0, bufferWords, format, pick');
            && ok && ok'
            && (ApplyStores(mem, log' + [Store(TABLE, TABLE_HEAD)]) == ApplyStores(mem, log) <==> img[84] == TABLE_HEAD)
  {
    OverlaysLoad(img, bufferWords, format, pick);
    RebuiltLoads(img, bufferWords, format, pick');
    hide ImageLog, PlainLog, ApplyStores, FrameWords, Rebuilt, IsOverlay, ListsStayClear;
    ImageLoadsPlainly(mem, img, 0, bufferWords, format, pick);
    ImageLoadsPlainly(mem, Rebuilt(img), 0, bufferWords, format, pick');
    var frame := FrameWords(format);
    PlainOverlaysAgreeIff(mem, img, frame);
    var log' := ImageLog(Rebuilt(img), 0, bufferWords, format, pick').0;
    LastStoreWins(mem, log', Store(TABLE, TABLE_HEAD));
    LastStoreWins(mem, PlainLog(Rebuilt(img), 0, frame), Store(TABLE, TABLE_HEAD));
  }

  lemma LastStoreWins(mem: map<int, u32>, s: seq<Store>, x: Store)
    ensures ApplyStores(mem, s + [x]) == ApplyStores(mem, s)[x.addr := x.val]
    ensures x.addr in ApplyStores(mem, s + [x]) && ApplyStores(mem, s + [x])[x.addr] == x.val
  {
    assert Front(s + [x]) == s;
  }
}
