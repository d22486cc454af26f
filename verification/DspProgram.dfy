/** What image files are made from, and that loading one runs it: a program of single writes
    and data blocks, its encoding as an image, and its meaning as stores made one by one. */
module DspProgram {
  import opened Words
  import opened DspDma
  import opened DspLoader
  import opened DspImage

  /** Blocks of data, some with a list of single writes in front, and perhaps a last list
      with no block behind it. */
  datatype Program =
    | End
    | FinalList(list: seq<u32>)
    | Block(addr: u32, data: seq<u32>, rest: Program)
    | ListedBlock(list: seq<u32>, addr: u32, data: seq<u32>, rest: Program)

  predicate GoodBlock(addr: u32, data: seq<u32>) {
    data != [] && addr != LIST_MARK && addr % 4 == 0 && addr + 4 * |data| <= TWO_32
  }

  predicate GoodProgram(g: Program) {
    match g
    case End => true
    case FinalList(list) => 0 < |list| < TWO_32
    case Block(a, data, rest) => GoodBlock(a, data) && GoodProgram(rest)
    case ListedBlock(list, a, data, rest) => 0 < |list| < TWO_32 && GoodBlock(a, data) && GoodProgram(rest)
  }

  /** One segment of an image file. */
  function Segment(a: u32, data: seq<u32>): seq<u32>
    requires |data| < TWO_32
  {
    [MAGIC, a, |data|] + data
  }

  function ImageOf(g: Program): seq<u32>
    requires GoodProgram(g)
  {
    match g
    case End => Segment(0, [])
    case FinalList(list) => Segment(LIST_MARK, list) + Segment(0, [])
    case Block(a, data, rest) => Segment(a, data) + ImageOf(rest)
    case ListedBlock(list, a, data, rest) => Segment(LIST_MARK, list) + (Segment(a, data) + ImageOf(rest))
  }

  /** The memory after single writes made pair by pair. */
  function WritePairs(mem: map<int, u32>, list: seq<u32>): map<int, u32>
    decreases |list|
  {
    if |list| < 2 then mem else WritePairs(mem[list[0] as int := list[1]], list[2..])
  }

  /** The memory after the words of a block, the first at chip address a. */
  function WriteBlock(mem: map<int, u32>, a: int, data: seq<u32>): map<int, u32>
    decreases |data|
  {
    if data == [] then mem else WriteBlock(mem[a := data[0]], a + 4, data[1..])
  }

  /** The memory a program leaves. The loader drops a list whose block holds no frame. */
  function RunProgram(mem: map<int, u32>, g: Program, frame: nat): map<int, u32>
    decreases g
  {
    match g
    case End => mem
    case FinalList(list) => WritePairs(mem, list)
    case Block(a, data, rest) => RunProgram(WriteBlock(mem, a, data), rest, frame)
    case ListedBlock(list, a, data, rest) =>
      var listed := if |data| >= frame then WritePairs(mem, list) else mem;
      RunProgram(WriteBlock(listed, a, data), rest, frame)
  }

  /** Every block lies in one memory with a buffer that holds a frame. */
  ghost predicate ProgramFits(g: Program, bufferWords: nat, format: nat) {
    match g
    case End => true
    case FinalList(_) => true
    case Block(a, data, rest) => Loadable(a, |data|, bufferWords, format) && ProgramFits(rest, bufferWords, format)
    case ListedBlock(_, a, data, rest) => Loadable(a, |data|, bufferWords, format) && ProgramFits(rest, bufferWords, format)
  }

  /** A list whose block holds a frame writes elsewhere. */
  predicate ListsApart(g: Program, frame: nat) {
    match g
    case End => true
    case FinalList(_) => true
    case Block(_, _, rest) => ListsApart(rest, frame)
    case ListedBlock(list, a, data, rest) =>
      (|data| >= frame ==> Disjoint(HciStores(list), Stores(a, data))) && ListsApart(rest, frame)
  }

  // ---- reading a segment back -------------------------------------------------------------

  lemma SegmentAt(img: seq<u32>, p: nat, a: u32, data: seq<u32>, rest: seq<u32>)
    requires p <= |img| && |data| < TWO_32 && img[p..] == Segment(a, data) + rest
    ensures HasData(img, p) && img[p] == MAGIC && AddrAt(img, p) == a && CountAt(img, p) == |data|
    ensures DataAt(img, p) == data && NextAt(img, p) <= |img| && img[NextAt(img, p)..] == rest
  {
    var t := Segment(a, data) + rest;
    assert |t| == 3 + |data| + |rest|;
    assert img[p] == t[0] && img[p + 1] == t[1] && img[p + 2] == t[2];
    assert forall i :: 0 <= i < |data| ==> img[p + 3 + i] == img[p..][3 + i] == t[3 + i] == data[i];
    assert img[p..][3 + |data|..] == img[p + 3 + |data|..];
    assert t[3 + |data|..] == rest;
  }

  lemma TerminatorAt(img: seq<u32>, p: nat)
    requires p <= |img| && img[p..] == Segment(0, [])
    ensures HasData(img, p) && CountAt(img, p) == 0 && WellFormed(img, p)
  {
    assert Segment(0, []) + [] == Segment(0, []);
    SegmentAt(img, p, 0, [], []);
  }

  lemma {:induction false} PairsAreStores(mem: map<int, u32>, list: seq<u32>)
    ensures WritePairs(mem, list) == ApplyStores(mem, HciStores(list))
    decreases |list|
  {
    if |list| >= 2 {
      var first := Store(list[0], list[1]);
      PairsAreStores(mem[list[0] as int := list[1]], list[2..]);
      ApplyConcat(mem, [first], HciStores(list[2..]));
      OneStore(mem, first);
    }
  }

  lemma OneStore(mem: map<int, u32>, x: Store)
    ensures ApplyStores(mem, [x]) == mem[x.addr := x.val]
  {
    assert [] + [x] == [x];
    LastStoreWins(mem, [], x);
  }

  lemma {:induction false} BlockIsStores(mem: map<int, u32>, a: int, data: seq<u32>)
    ensures WriteBlock(mem, a, data) == ApplyStores(mem, Stores(a, data))
    decreases |data|
  {
    if data == [] {
      assert Stores(a, data) == [];
    } else {
      assert [data[0]] + data[1..] == data;
      StoresConcat(a, [data[0]], data[1..]);
      assert Stores(a, [data[0]]) == [Store(a, data[0])];
      BlockIsStores(mem[a := data[0]], a + 4, data[1..]);
      hide Stores, ApplyStores;
      ApplyConcat(mem, [Store(a, data[0])], Stores(a + 4, data[1..]));
      OneStore(mem, Store(a, data[0]));
    }
  }

  // ---- an encoded program inside an image --------------------------------------------------

  /** What the image functions say of an image that continues with the program g at p. */
  ghost predicate Reads(img: seq<u32>, p: nat, g: Program, bufferWords: nat, format: nat) {
    && WellFormed(img, p)
    && (AllLoad(img, p, bufferWords, format) <==> ProgramFits(g, bufferWords, format))
    && (ListsApart(g, FrameWords(format)) ==> ListsStayClear(img, p, FrameWords(format)))
    && forall mem: map<int, u32> :: ApplyStores(mem, PlainLog(img, p, FrameWords(format))) == RunProgram(mem, g, FrameWords(format))
  }

  lemma EndReads(img: seq<u32>, p: nat, bufferWords: nat, format: nat)
    requires p <= |img| && img[p..] == Segment(0, [])
    ensures Reads(img, p, End, bufferWords, format)
  {
    TerminatorAt(img, p);
    NothingToLoad(img, p, bufferWords, format);
  }

  lemma FinalListReads(img: seq<u32>, p: nat, list: seq<u32>, bufferWords: nat, format: nat)
    requires 0 < |list| < TWO_32 && p <= |img| && img[p..] == Segment(LIST_MARK, list) + Segment(0, [])
    ensures Reads(img, p, FinalList(list), bufferWords, format)
  {
    hide AllLoad, Segment, ApplyStores, FrameWords, Loadable;
    SegmentAt(img, p, LIST_MARK, list, Segment(0, []));
    var q := NextAt(img, p);
    TerminatorAt(img, q);
    NothingToLoad(img, q, bufferWords, format);
    AllLoadStep(img, p, bufferWords, format);
    assert PlainLog(img, p, FrameWords(format)) == HciStores(list);
    hide PlainLog;
    forall mem: map<int, u32>
      ensures ApplyStores(mem, PlainLog(img, p, FrameWords(format))) == RunProgram(mem, FinalList(list), FrameWords(format))
    {
      PairsAreStores(mem, list);
    }
  }

  lemma BlockReads(img: seq<u32>, p: nat, g: Program, bufferWords: nat, format: nat)
    requires g.Block? && GoodBlock(g.addr, g.data) && HasData(img, p) && img[p] == MAGIC
    requires AddrAt(img, p) == g.addr && CountAt(img, p) == |g.data| && DataAt(img, p) == g.data
    requires Reads(img, NextAt(img, p), g.rest, bufferWords, format)
    ensures Reads(img, p, g, bufferWords, format)
  {
    hide AllLoad, ApplyStores, FrameWords, Loadable, Stores;
    AllLoadStep(img, p, bufferWords, format);
    var block, rest := Stores(g.addr, g.data), PlainLog(img, NextAt(img, p), FrameWords(format));
    assert PlainLog(img, p, FrameWords(format)) == block + rest;
    hide PlainLog;
    forall mem: map<int, u32>
      ensures ApplyStores(mem, PlainLog(img, p, FrameWords(format))) == RunProgram(mem, g, FrameWords(format))
    {
      BlockIsStores(mem, g.addr, g.data);
      ApplyConcat(mem, block, rest);
    }
  }

  lemma ListedBlockReads(img: seq<u32>, p: nat, g: Program, bufferWords: nat, format: nat)
    requires g.ListedBlock? && g.list != [] && GoodBlock(g.addr, g.data) && HasData(img, p) && img[p] == MAGIC
    requires AddrAt(img, p) == LIST_MARK && CountAt(img, p) == |g.list| && DataAt(img, p) == g.list
    requires var q := NextAt(img, p); HasData(img, q) && AddrAt(img, q) == g.addr && CountAt(img, q) == |g.data| && DataAt(img, q) == g.data
    requires Reads(img, NextAt(img, NextAt(img, p)), g.rest, bufferWords, format)
    ensures Reads(img, p, g, bufferWords, format)
  {
    hide AllLoad, ApplyStores, FrameWords, Loadable, Stores, HciStores, Disjoint;
    var q := NextAt(img, p);
    assert WellFormed(img, p);
    AllLoadStep(img, p, bufferWords, format);
    var frame := FrameWords(format);
    var list, block, rest := Issued(img, p, frame), Stores(g.addr, g.data), PlainLog(img, NextAt(img, q), frame);
    assert PlainLog(img, p, frame) == list + block + rest;
    assert list == if |g.data| >= frame then HciStores(g.list) else [];
    NothingStored(g.addr, g.data);
    hide PlainLog, Issued;
    forall mem: map<int, u32>
      ensures ApplyStores(mem, PlainLog(img, p, frame)) == RunProgram(mem, g, frame)
    {
      var listed := if |g.data| >= frame then WritePairs(mem, g.list) else mem;
      PairsAreStores(mem, g.list);
      NothingApplied(mem);
      BlockIsStores(listed, g.addr, g.data);
      ApplyConcat(mem, list + block, rest);
      ApplyConcat(mem, list, block);
    }
  }

  lemma NothingApplied(mem: map<int, u32>)
    ensures ApplyStores(mem, []) == mem
  {
  }

  lemma NothingStored(a: int, data: seq<u32>)
    ensures Disjoint([], Stores(a, data))
  {
  }

  lemma {:induction false} EncodedReads(img: seq<u32>, p: nat, g: Program, bufferWords: nat, format: nat)
    requires GoodProgram(g) && p <= |img| && img[p..] == ImageOf(g)
    ensures Reads(img, p, g, bufferWords, format)
    decreases g
  {
    hide Reads, Segment;
    match g
    case End =>
      EndReads(img, p, bufferWords, format);
    case FinalList(list) => FinalListReads(img, p, list, bufferWords, format);
    case Block(a, data, rest) =>
      SegmentAt(img, p, a, data, ImageOf(rest));
      EncodedReads(img, NextAt(img, p), rest, bufferWords, format);
      BlockReads(img, p, g, bufferWords, format);
    case ListedBlock(list, a, data, rest) =>
      SegmentAt(img, p, LIST_MARK, list, Segment(a, data) + ImageOf(rest));
      var q := NextAt(img, p);
      SegmentAt(img, q, a, data, ImageOf(rest));
      EncodedReads(img, NextAt(img, q), rest, bufferWords, format);
      ListedBlockReads(img, p, g, bufferWords, format);
  }

  /** Loading the image of a program gets through if and only if every block of the program
      can be loaded, and then, under any schedule of the DMA runs, it leaves the memory that
      running the program leaves, provided the lists write outside the blocks they come with. */
  lemma LoadingRunsTheProgram(mem: map<int, u32>, g: Program, bufferWords: nat, format: nat, pick: nat -> nat -> bool)
    requires GoodProgram(g) && FrameWords(format) > 0
    ensures WellFormed(ImageOf(g), 0)
    ensures ImageLog(ImageOf(g), 0, bufferWords, format, pick).1 <==> ProgramFits(g, bufferWords, format)
    ensures ProgramFits(g, bufferWords, format) && ListsApart(g, FrameWords(format)) ==>
              ApplyStores(mem, ImageLog(ImageOf(g), 0, bufferWords, format, pick).0) == RunProgram(mem, g, FrameWords(format))
  {
    var img := ImageOf(g);
    assert img[0..] == img;
    EncodedReads(img, 0, g, bufferWords, format);
    hide ImageOf, ImageLog, AllLoad, ProgramFits, ListsApart, PlainLog, ApplyStores, RunProgram, FrameWords;
    GetsThroughIff(img, 0, bufferWords, format, pick);
    if ProgramFits(g, bufferWords, format) && ListsApart(g, FrameWords(format)) {
      ImageLoadsPlainly(mem, img, 0, bufferWords, format, pick);
    }
  }
}
