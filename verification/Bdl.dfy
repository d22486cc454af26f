/** The buffer descriptor list of a stream (section 3.6.3 of the High Definition Audio
    Specification): setup_bdle cuts each period into physically contiguous chunks. */
module Bdl {
  import opened Words

  const MAX_BDL_ENTRIES: nat := 256
  const TWO_64: int := 0x1_0000_0000_0000_0000

  /** The DMA buffer as the allocator lays it out: where each byte lives, and how far
      memory is contiguous from an offset on. */
  datatype Layout = Layout(phys: nat -> nat, contiguous: (nat, nat) -> nat, addrOffset: nat, align4k: bool)

  /** Byte j after offset o is the j-th after it in physical memory, too. */
  predicate Follows(l: Layout, o: nat, j: nat) {
    l.phys(o + j) == l.phys(o) + j
  }

  ghost predicate Sound(l: Layout) {
    && (forall o: nat, size: nat :: size > 0 ==> 0 < l.contiguous(o, size) <= size)
    && (forall o: nat, size: nat, j: nat :: j < l.contiguous(o, size) ==> Follows(l, o, j))
    && (forall o: nat :: l.phys(o) + l.addrOffset < TWO_64)
  }

  datatype Entry = Entry(lo: u32, hi: u32, len: nat, ioc: bool)

  function Address(e: Entry): nat {
    e.hi * TWO_32 + e.lo
  }

  /** n consecutive addresses. */
  function Range(a: nat, n: nat): seq<int> {
    seq(n, (j: nat) => a + j)
  }

  /** The byte addresses a table describes. */
  function Bytes(t: seq<Entry>): seq<int> {
    if t == [] then [] else Bytes(Front(t)) + Range(Address(Last(t)), Last(t).len)
  }

  /** Where, in bytes from the start, an interrupt is raised. */
  function InterruptsAt(t: seq<Entry>): seq<int> {
    if t == [] then [] else InterruptsAt(Front(t)) + (if Last(t).ioc then [|Bytes(t)|] else [])
  }

  // ---- one piece ------------------------------------------------------------------------

  /** The chunk that starts at ofs when size bytes are left. */
  function Chunk(l: Layout, ofs: nat, size: nat): nat {
    var c := l.contiguous(ofs, size);
    var remain := 0x1000 - ofs % 0x1000;
    if l.align4k && c > remain then remain else c
  }

  function EntryFor(l: Layout, ofs: nat, size: nat, withIoc: bool): Entry
    requires Sound(l) && size > 0
  {
    var addr := l.phys(ofs) + l.addrOffset;
    Entry(addr % TWO_32, addr / TWO_32, Chunk(l, ofs, size), withIoc && size == Chunk(l, ofs, size))
  }

  /** The entries of a piece of `size` bytes from offset ofs on. */
  ghost function Chunks(l: Layout, ofs: nat, size: nat, withIoc: bool): seq<Entry>
    requires Sound(l)
    decreases size
  {
    if size == 0 then []
    else
      ChunkBounds(l, ofs, size);
      var c := Chunk(l, ofs, size);
      [EntryFor(l, ofs, size, withIoc)] + Chunks(l, ofs + c, size - c, withIoc)
  }

  lemma ChunkBounds(l: Layout, ofs: nat, size: nat)
    requires Sound(l) && size > 0
    ensures 0 < Chunk(l, ofs, size) <= size && Chunk(l, ofs, size) <= l.contiguous(ofs, size)
  {
    assert 0 < l.contiguous(ofs, size) <= size;
  }

  /** The addresses of `size` bytes from offset ofs on. */
  function PhysicalBytes(l: Layout, ofs: nat, size: nat): seq<int> {
    seq(size, (j: nat) => l.phys(ofs + j) + l.addrOffset)
  }

  lemma BytesSnoc(t: seq<Entry>, e: Entry)
    ensures Bytes(t + [e]) == Bytes(t) + Range(Address(e), e.len)
    ensures InterruptsAt(t + [e]) == InterruptsAt(t) + (if e.ioc then [|Bytes(t)| + e.len] else [])
  {
    assert Front(t + [e]) == t;
  }

  /** One entry describes exactly its chunk, at the right physical address. */
  lemma EntryCoversChunk(l: Layout, ofs: nat, size: nat, withIoc: bool)
    requires Sound(l) && size > 0
    ensures EntryFor(l, ofs, size, withIoc).len == Chunk(l, ofs, size)
    ensures EntryFor(l, ofs, size, withIoc).ioc <==> withIoc && size == Chunk(l, ofs, size)
    ensures var e := EntryFor(l, ofs, size, withIoc);
            Range(Address(e), e.len) == PhysicalBytes(l, ofs, e.len)
  {
    ChunkBounds(l, ofs, size);
    var e := EntryFor(l, ofs, size, withIoc);
    assert Address(e) == l.phys(ofs) + l.addrOffset;
    forall j: nat | j < e.len
      ensures Range(Address(e), e.len)[j] == PhysicalBytes(l, ofs, e.len)[j]
    {
      assert Follows(l, ofs, j);
    }
  }

  lemma PhysicalLength(l: Layout, n: nat)
    ensures |PhysicalBytes(l, 0, n)| == n
  {
  }

  lemma PhysicalConcat(l: Layout, ofs: nat, n: nat, m: nat)
    ensures PhysicalBytes(l, ofs, n + m) == PhysicalBytes(l, ofs, n) + PhysicalBytes(l, ofs + n, m)
  {
  }

  /** A piece appended to a table that covers everything before it: its bytes follow in
      order, and it raises one interrupt at its very end if asked to, else none. */
  lemma {:induction false} PieceCovers(l: Layout, t: seq<Entry>, ofs: nat, size: nat, withIoc: bool)
    requires Sound(l) && Bytes(t) == PhysicalBytes(l, 0, ofs)
    ensures Bytes(t + Chunks(l, ofs, size, withIoc)) == PhysicalBytes(l, 0, ofs + size)
    ensures InterruptsAt(t + Chunks(l, ofs, size, withIoc))
         == InterruptsAt(t) + (if withIoc && size > 0 then [ofs + size] else [])
    decreases size
  {
    hide PhysicalBytes, Range, EntryFor, Chunk, Address, Sound, Bytes, InterruptsAt;
    if size == 0 {
      assert t + [] == t;
    } else {
      var e, c := EntryFor(l, ofs, size, withIoc), Chunk(l, ofs, size);
      ChunkBounds(l, ofs, size);
      BytesSnoc(t, e);
      EntryCoversChunk(l, ofs, size, withIoc);
      PhysicalLength(l, ofs);
      PhysicalConcat(l, 0, ofs, c);
      PieceCovers(l, t + [e], ofs + c, size - c, withIoc);
      assert t + Chunks(l, ofs, size, withIoc) == (t + [e]) + Chunks(l, ofs + c, size - c, withIoc);
    }
  }

  /** No entry crosses a 4 KiB boundary of physical memory. */
  predicate Within4k(t: seq<Entry>) {
    forall i :: 0 <= i < |t| ==> Address(t[i]) % 0x1000 + t[i].len <= 0x1000
  }

  /** With align_bdle_4k, if the allocator hands out pages (addresses agree with offsets
      modulo 4 KiB), no entry crosses a 4 KiB boundary. */
  lemma {:induction false} PieceWithin4k(l: Layout, ofs: nat, size: nat, withIoc: bool)
    requires Sound(l) && l.align4k
    requires forall o: nat :: (l.phys(o) + l.addrOffset) % 0x1000 == o % 0x1000
    ensures Within4k(Chunks(l, ofs, size, withIoc))
    decreases size
  {
    if size > 0 {
      ChunkBounds(l, ofs, size);
      var c := Chunk(l, ofs, size);
      PieceWithin4k(l, ofs + c, size - c, withIoc);
      assert Address(EntryFor(l, ofs, size, withIoc)) == l.phys(ofs) + l.addrOffset;
    }
  }

  // ---- the whole table --------------------------------------------------------------------

  /** The first adjustment, in bytes: rounded up to whole multiples of the requested number
      of frames, and dropped when it does not fit into a period. */
  function PosAdjust(posAdj: nat, rate: nat, frameBytes: nat, periodBytes: nat): nat {
    if posAdj == 0 then 0
    else
      var frames := (posAdj * rate + 47999) / 48000;
      var aligned := if frames == 0 then posAdj else (frames + posAdj - 1) / posAdj * posAdj;
      if aligned * frameBytes >= periodBytes then 0 else aligned * frameBytes
  }

  /** Where period i starts. */
  function PeriodStart(adj: nat, periodBytes: nat, i: nat): nat {
    adj + i * periodBytes
  }

  lemma NextPeriod(adj: nat, periodBytes: nat, i: nat)
    ensures PeriodStart(adj, periodBytes, 0) == adj
    ensures PeriodStart(adj, periodBytes, i + 1) == PeriodStart(adj, periodBytes, i) + periodBytes
    ensures Wakeups(adj, periodBytes, 0) == (if adj > 0 then [adj] else [])
    ensures Wakeups(adj, periodBytes, i + 1) == Wakeups(adj, periodBytes, i) + [PeriodStart(adj, periodBytes, i + 1)]
  {
    assert (i + 1) * periodBytes == i * periodBytes + periodBytes;
  }

  /** The table before period i: the adjustment and i whole periods. */
  ghost function TableUpTo(l: Layout, adj: nat, periodBytes: nat, wakeup: bool, i: nat): seq<Entry>
    requires Sound(l)
  {
    if i == 0 then
      Chunks(l, 0, adj, true)
    else
      TableUpTo(l, adj, periodBytes, wakeup, i - 1) + Chunks(l, PeriodStart(adj, periodBytes, i - 1), periodBytes, wakeup)
  }

  /** snd_hdac_stream_setup_bdle: the last period is shortened by the adjustment and then
      raises no interrupt of its own. */
  ghost function Table(l: Layout, adj: nat, periodBytes: nat, wakeup: bool, periods: nat): seq<Entry>
    requires Sound(l) && periods > 0 && adj < periodBytes
  {
    var last := PeriodStart(adj, periodBytes, periods - 1);
    TableUpTo(l, adj, periodBytes, wakeup, periods - 1)
    + Chunks(l, last, periodBytes - adj, adj == 0 && wakeup)
  }

  /** Interrupts after the adjustment and after each of the first i periods. */
  function Wakeups(adj: nat, periodBytes: nat, i: nat): seq<int> {
    if adj > 0 then seq(i + 1, (k: nat) => adj + k * periodBytes)
    else seq(i, (k: nat) => (k + 1) * periodBytes)
  }

  lemma {:induction false} UpToCovers(l: Layout, adj: nat, periodBytes: nat, wakeup: bool, i: nat)
    requires Sound(l) && periodBytes > 0 && (adj > 0 ==> wakeup)
    ensures var t := TableUpTo(l, adj, periodBytes, wakeup, i);
            && Bytes(t) == PhysicalBytes(l, 0, PeriodStart(adj, periodBytes, i))
            && InterruptsAt(t) == if wakeup then Wakeups(adj, periodBytes, i) else []
  {
    hide PhysicalBytes, Chunks, PeriodStart, Wakeups, Bytes, InterruptsAt;
    if i == 0 {
      NextPeriod(adj, periodBytes, 0);
      EmptyTable(l);
      PieceCovers(l, [], 0, adj, true);
      assert [] + Chunks(l, 0, adj, true) == Chunks(l, 0, adj, true);
    } else {
      NextPeriod(adj, periodBytes, i - 1);
      UpToCovers(l, adj, periodBytes, wakeup, i - 1);
      PieceCovers(l, TableUpTo(l, adj, periodBytes, wakeup, i - 1), PeriodStart(adj, periodBytes, i - 1), periodBytes, wakeup);
    }
  }

  lemma EmptyTable(l: Layout)
    ensures Bytes([]) == PhysicalBytes(l, 0, 0) == [] && InterruptsAt([]) == []
  {
  }

  /** The main result: the expanded table is exactly the physical address of every byte of
      the buffer's whole periods, in order; with period wakeups there are exactly `periods`
      interrupts, one period apart, shifted by the adjustment if there is one; without
      wakeups there are none. */
  lemma TableCoversBuffer(l: Layout, adj: nat, periodBytes: nat, wakeup: bool, periods: nat)
    requires Sound(l) && periods > 0 && adj < periodBytes && (adj > 0 ==> wakeup)
    ensures var t := Table(l, adj, periodBytes, wakeup, periods);
            && Bytes(t) == PhysicalBytes(l, 0, periods * periodBytes)
            && InterruptsAt(t) == if !wakeup then [] else
                 seq(periods, (k: nat) => if adj > 0 then adj + k * periodBytes else (k + 1) * periodBytes)
  {
    hide PhysicalBytes, Chunks, Bytes, InterruptsAt;
    UpToCovers(l, adj, periodBytes, wakeup, periods - 1);
    var last := PeriodStart(adj, periodBytes, periods - 1);
    PieceCovers(l, TableUpTo(l, adj, periodBytes, wakeup, periods - 1), last, periodBytes - adj, adj == 0 && wakeup);
    assert last + (periodBytes - adj) == periods * periodBytes;
  }

  /** The table reaches the end of the buffer if and only if the buffer is whole periods;
      otherwise the bytes behind the last whole period have no entry. */
  lemma TableReachesEndIff(l: Layout, adj: nat, periodBytes: nat, wakeup: bool, bufsize: nat)
    requires Sound(l) && 0 < periodBytes <= bufsize && adj < periodBytes && (adj > 0 ==> wakeup)
    ensures bufsize / periodBytes > 0
    ensures Bytes(Table(l, adj, periodBytes, wakeup, bufsize / periodBytes)) == PhysicalBytes(l, 0, bufsize)
       <==> bufsize % periodBytes == 0
  {
    hide Bytes, Table, PhysicalBytes;
    AtLeastOnePeriod(bufsize, periodBytes);
    var periods := bufsize / periodBytes;
    TableCoversBuffer(l, adj, periodBytes, wakeup, periods);
    WholePeriods(bufsize, periodBytes);
    PhysicalLength(l, periods * periodBytes);
    PhysicalLength(l, bufsize);
  }

  lemma WholePeriods(n: nat, p: nat)
    requires p > 0
    ensures n / p * p >= 0 && (n / p * p == n <==> n % p == 0)
  {
    assert n == p * (n / p) + n % p;
  }

  lemma {:induction false} UpToWithin4k(l: Layout, adj: nat, periodBytes: nat, wakeup: bool, i: nat)
    requires Sound(l) && l.align4k
    requires forall o: nat :: (l.phys(o) + l.addrOffset) % 0x1000 == o % 0x1000
    ensures Within4k(TableUpTo(l, adj, periodBytes, wakeup, i))
  {
    if i == 0 {
      PieceWithin4k(l, 0, adj, true);
    } else {
      UpToWithin4k(l, adj, periodBytes, wakeup, i - 1);
      PieceWithin4k(l, PeriodStart(adj, periodBytes, i - 1), periodBytes, wakeup);
    }
  }

  lemma TableWithin4k(l: Layout, adj: nat, periodBytes: nat, wakeup: bool, periods: nat)
    requires Sound(l) && l.align4k && periods > 0 && adj < periodBytes
    requires forall o: nat :: (l.phys(o) + l.addrOffset) % 0x1000 == o % 0x1000
    ensures Within4k(Table(l, adj, periodBytes, wakeup, periods))
  {
    UpToWithin4k(l, adj, periodBytes, wakeup, periods - 1);
    PieceWithin4k(l, PeriodStart(adj, periodBytes, periods - 1), periodBytes - adj, adj == 0 && wakeup);
  }

  /** A table only grows from one period to the next. */
  lemma {:induction false} UpToGrows(l: Layout, adj: nat, periodBytes: nat, wakeup: bool, i: nat, j: nat)
    requires Sound(l) && i <= j
    ensures |TableUpTo(l, adj, periodBytes, wakeup, i)| <= |TableUpTo(l, adj, periodBytes, wakeup, j)|
    decreases j
  {
    if i < j {
      UpToGrows(l, adj, periodBytes, wakeup, i, j - 1);
    }
  }

  /** Whatever period the table has reached, the finished table is no shorter. */
  lemma TableGrows(l: Layout, adj: nat, periodBytes: nat, wakeup: bool, periods: nat, i: nat)
    requires Sound(l) && periods > 0 && adj < periodBytes
    ensures i < periods ==> |TableUpTo(l, adj, periodBytes, wakeup, i)| <= |Table(l, adj, periodBytes, wakeup, periods)|
    ensures i == periods && adj == 0 ==>
              TableUpTo(l, adj, periodBytes, wakeup, i) == Table(l, adj, periodBytes, wakeup, periods)
  {
    if i < periods {
      UpToGrows(l, adj, periodBytes, wakeup, i, periods - 1);
    }
  }

  lemma TableStarts(l: Layout, adj: nat, periodBytes: nat, wakeup: bool, periods: nat)
    requires Sound(l) && periods > 0 && adj < periodBytes
    ensures TableUpTo(l, adj, periodBytes, wakeup, 0) == Chunks(l, 0, adj, true)
    ensures adj == 0 ==> Chunks(l, 0, adj, true) == []
    ensures |Chunks(l, 0, adj, true)| <= |Table(l, adj, periodBytes, wakeup, periods)|
    ensures PeriodStart(adj, periodBytes, 0) == adj
  {
    TableGrows(l, adj, periodBytes, wakeup, periods, 0);
  }

  /** Period i's entries continue the table, and never beyond the finished one. */
  lemma TableContinues(l: Layout, adj: nat, periodBytes: nat, wakeup: bool, periods: nat, i: nat)
    requires Sound(l) && periods > 0 && adj < periodBytes && i < periods
    ensures var start, t := PeriodStart(adj, periodBytes, i), Table(l, adj, periodBytes, wakeup, periods);
            var last := i == periods - 1;
            var piece := if last && adj > 0 then Chunks(l, start, periodBytes - adj, false) else Chunks(l, start, periodBytes, wakeup);
            var next := TableUpTo(l, adj, periodBytes, wakeup, i) + piece;
            && next == (if last then t else TableUpTo(l, adj, periodBytes, wakeup, i + 1))
            && |next| <= |t|
  {
    hide Chunks, PeriodStart;
    TableGrows(l, adj, periodBytes, wakeup, periods, i + 1);
  }

  // ---- how many entries -------------------------------------------------------------------

  /** The whole buffer is one stretch of physical memory. */
  ghost predicate Contiguous(l: Layout) {
    forall o: nat, n: nat :: n > 0 ==> l.contiguous(o, n) == n
  }

  /** In contiguous memory a piece is one entry, or with 4 KiB alignment one for every page
      it touches. */
  lemma {:induction false} ContiguousPiece(l: Layout, ofs: nat, size: nat, withIoc: bool)
    requires Sound(l) && Contiguous(l) && size > 0
    ensures |Chunks(l, ofs, size, withIoc)| == if l.align4k then (ofs + size - 1) / 0x1000 - ofs / 0x1000 + 1 else 1
    decreases size
  {
    ChunkBounds(l, ofs, size);
    var c := Chunk(l, ofs, size);
    assert l.contiguous(ofs, size) == size;
    hide Sound, Contiguous, EntryFor;
    if c < size {
      NextPage(ofs);
      hide Chunk;
      ContiguousPiece(l, ofs + c, size - c, withIoc);
    } else {
      hide Chunk;
      assert Chunks(l, ofs + c, 0, withIoc) == [];
      if l.align4k {
        SamePage(ofs, size);
      }
    }
  }

  lemma NextPage(ofs: nat)
    ensures var next := ofs + (0x1000 - ofs % 0x1000);
            next / 0x1000 == ofs / 0x1000 + 1
  {
  }

  lemma SamePage(ofs: nat, size: nat)
    requires 0 < size <= 0x1000 - ofs % 0x1000
    ensures (ofs + size - 1) / 0x1000 == ofs / 0x1000
  {
  }

  lemma {:induction false} ContiguousUpTo(l: Layout, adj: nat, periodBytes: nat, wakeup: bool, i: nat)
    requires Sound(l) && Contiguous(l) && !l.align4k && periodBytes > 0
    ensures |TableUpTo(l, adj, periodBytes, wakeup, i)| == i + if adj > 0 then 1 else 0
  {
    hide Chunks, Sound, Contiguous;
    if i == 0 {
      if adj > 0 {
        ContiguousPiece(l, 0, adj, true);
      } else {
        NoChunks(l, true);
      }
    } else {
      ContiguousUpTo(l, adj, periodBytes, wakeup, i - 1);
      ContiguousPiece(l, PeriodStart(adj, periodBytes, i - 1), periodBytes, wakeup);
    }
  }

  lemma NoChunks(l: Layout, withIoc: bool)
    requires Sound(l)
    ensures Chunks(l, 0, 0, withIoc) == []
  {
  }

  /** A contiguous buffer without the alignment flag needs one entry a period, and one more
      for the adjustment: up to 255 periods always fit. */
  lemma ContiguousTable(l: Layout, adj: nat, periodBytes: nat, wakeup: bool, periods: nat)
    requires Sound(l) && Contiguous(l) && !l.align4k && periods > 0 && adj < periodBytes
    ensures |Table(l, adj, periodBytes, wakeup, periods)| == periods + if adj > 0 then 1 else 0
  {
    hide Chunks, TableUpTo;
    ContiguousUpTo(l, adj, periodBytes, wakeup, periods - 1);
    ContiguousPiece(l, PeriodStart(adj, periodBytes, periods - 1), periodBytes - adj, adj == 0 && wakeup);
  }

  /** The position adjustment in closed form: the requested number of frames once for every
      started 48 kHz of the rate (once at rate 0), unless that fills a whole period. */
  lemma AdjustmentIs(posAdj: nat, rate: nat, frameBytes: nat, periodBytes: nat)
    ensures var most := posAdj * (if rate == 0 then 1 else (rate + 47999) / 48000) * frameBytes;
            PosAdjust(posAdj, rate, frameBytes, periodBytes) == if posAdj == 0 || most >= periodBytes then 0 else most
  {
    if posAdj > 0 && rate > 0 {
      var q, frames := (rate + 47999) / 48000, (posAdj * rate + 47999) / 48000;
      StartedUnits(posAdj, rate, q);
      DivisionIsUnique(frames + posAdj - 1, posAdj, q, frames - 1 - posAdj * (q - 1));
    } else if posAdj > 0 {
      assert posAdj * rate == 0 && (posAdj * rate + 47999) / 48000 == 0;
    }
  }

  lemma StartedUnits(p: nat, rate: nat, q: nat)
    requires p > 0 && rate > 0 && q == (rate + 47999) / 48000
    ensures q >= 1 && p * (q - 1) < (p * rate + 47999) / 48000 <= p * q
    ensures p * q == p * (q - 1) + p
  {
    assert 48000 * (q - 1) < rate <= 48000 * q;
    Scaled(p, 48000 * (q - 1) + 1, rate);
    Scaled(p, rate, 48000 * q);
    assert p * (48000 * (q - 1) + 1) == 48000 * (p * (q - 1)) + p;
    assert p * (48000 * q) == 48000 * (p * q);
    assert p * q == p * (q - 1) + p;
  }

  lemma Scaled(p: nat, a: nat, b: nat)
    requires a <= b
    ensures p * a <= p * b
  {
  }

  // ---- the stream object ------------------------------------------------------------------

  /** The first n entries of the descriptor memory, four words each. */
  function TableOf(words: seq<u32>, n: nat): (t: seq<Entry>)
    requires 4 * n <= |words|
    ensures |t| == n
  {
    seq(n, i requires 0 <= i < n => Entry(words[4 * i], words[4 * i + 1], words[4 * i + 2], words[4 * i + 3] == 1))
  }

  /** The table of a firmware download: two periods, no interrupts. */
  ghost function DownloadTable(l: Layout, byteSize: nat): seq<Entry>
    requires Sound(l) && byteSize >= 2
  {
    AtLeastOnePeriod(byteSize, byteSize / 2);
    Table(l, 0, byteSize / 2, false, byteSize / (byteSize / 2))
  }

  class HdacStream {
    const bdl: array<u32>
    var frags: nat
    var bufsize: nat
    var periodBytes: nat
    var noPeriodWakeup: bool
    var running: bool
    var locked: bool

    ghost predicate Valid()
      reads this
    {
      bdl.Length == 4 * MAX_BDL_ENTRIES && frags <= MAX_BDL_ENTRIES
    }

    ghost function Current(): seq<Entry>
      requires Valid()
      reads this, bdl
    {
      TableOf(bdl[..], frags)
    }

    constructor (bufsize: nat, periodBytes: nat, noPeriodWakeup: bool)
      ensures Valid() && frags == 0 && fresh(bdl) && !running && !locked
      ensures this.bufsize == bufsize && this.periodBytes == periodBytes && this.noPeriodWakeup == noPeriodWakeup
    {
      bdl := new u32[4 * MAX_BDL_ENTRIES](_ => 0);
      frags, running, locked := 0, false, false;
      this.bufsize, this.periodBytes, this.noPeriodWakeup := bufsize, periodBytes, noPeriodWakeup;
    }

    /** The four words of one entry. */
    method AppendEntry(addr: nat, chunk: u32, ioc: bool)
      requires Valid() && frags < MAX_BDL_ENTRIES && addr < TWO_64
      modifies this`frags, bdl
      ensures Valid() && frags == old(frags) + 1
      ensures Current() == old(Current()) + [Entry(addr % TWO_32, addr / TWO_32, chunk, ioc)]
    {
      var p := 4 * frags;
      bdl[p] := addr % TWO_32;
      bdl[p + 1] := addr / TWO_32;
      bdl[p + 2] := chunk;
      bdl[p + 3] := if ioc then 1 else 0;
      frags := frags + 1;
    }

    /** setup_bdle: appends exactly the chunks of the piece, or fails if they do not fit. */
    method SetupBdle(l: Layout, ofs: nat, size: nat, withIoc: bool) returns (ok: bool)
      requires Valid() && Sound(l) && size < TWO_32
      modifies this`frags, bdl
      ensures Valid()
      ensures ok <==> |old(Current())| + |Chunks(l, ofs, size, withIoc)| <= MAX_BDL_ENTRIES
      ensures ok ==> Current() == old(Current()) + Chunks(l, ofs, size, withIoc)
    {
      hide TableOf, Sound, Chunk;
      var at, left := ofs, size;
      ghost var goal := Current() + Chunks(l, ofs, size, withIoc);
      while left > 0
        invariant Valid() && 0 <= left <= size
        invariant Current() + Chunks(l, at, left, withIoc) == goal
      {
        ChunkBounds(l, at, left);
        EntryAddress(l, at);
        if frags >= MAX_BDL_ENTRIES {
          assert |goal| > MAX_BDL_ENTRIES;
          return false;
        }
        var addr := l.phys(at) + l.addrOffset;
        var chunk := Chunk(l, at, left);
        ghost var rest := Chunks(l, at + chunk, left - chunk, withIoc);
        ghost var e := EntryFor(l, at, left, withIoc);
        assert Current() + ([e] + rest) == (Current() + [e]) + rest;
        AppendEntry(addr, chunk, left == chunk && withIoc);
        at, left := at + chunk, left - chunk;
      }
      assert Chunks(l, at, 0, withIoc) == [] && Current() + [] == Current();
      return true;
    }

    /** snd_hdac_stream_setup_bdle: builds the whole table if it fits into 256 entries and
        fails otherwise. */
    method SetupTable(l: Layout, hasRuntime: bool, bdlPosAdj: nat, rate: nat, frameBytes: nat) returns (ok: bool)
      requires Valid() && Sound(l) && 0 < periodBytes <= bufsize < TWO_32
      modifies this`frags, bdl
      ensures Valid()
      ensures var adj := if hasRuntime && !noPeriodWakeup then PosAdjust(bdlPosAdj, rate, frameBytes, periodBytes) else 0;
              var t := Table(l, adj, periodBytes, !noPeriodWakeup, bufsize / periodBytes);
              && (ok <==> |t| <= MAX_BDL_ENTRIES)
              && (ok ==> Current() == t)
              && (ok ==> (Bytes(Current()) == PhysicalBytes(l, 0, bufsize) <==> bufsize % periodBytes == 0))
              && (Contiguous(l) && !l.align4k ==>
                    (ok <==> bufsize / periodBytes + (if adj > 0 then 1 else 0) <= MAX_BDL_ENTRIES))
    {
      hide Contiguous, Chunks, Sound, TableOf, PosAdjust, PeriodStart, Wakeups, Bytes, PhysicalBytes, Table;
      var periods := bufsize / periodBytes;
      AtLeastOnePeriod(bufsize, periodBytes);
      var posAdj := if hasRuntime && !noPeriodWakeup then PosAdjust(bdlPosAdj, rate, frameBytes, periodBytes) else 0;
      AdjustmentFits(bdlPosAdj, rate, frameBytes, periodBytes);
      TableReachesEndIff(l, posAdj, periodBytes, !noPeriodWakeup, bufsize);
      if Contiguous(l) && !l.align4k {
        ContiguousTable(l, posAdj, periodBytes, !noPeriodWakeup, periods);
      }
      ok := FillTable(l, posAdj, periods);
    }

    /** Its loop over the periods. */
    method FillTable(l: Layout, posAdj: nat, periods: nat) returns (ok: bool)
      requires Valid() && Sound(l) && periods > 0 && posAdj < periodBytes < TWO_32
      modifies this`frags, bdl
      ensures Valid()
      ensures var t := Table(l, posAdj, periodBytes, !noPeriodWakeup, periods);
              && (ok <==> |t| <= MAX_BDL_ENTRIES)
              && (ok ==> Current() == t)
    {
      hide Chunks, Sound, TableOf, PeriodStart, TableUpTo, Table;
      var wakeup := !noPeriodWakeup;
      ghost var t := Table(l, posAdj, periodBytes, wakeup, periods);
      frags := 0;
      assert Current() == [];
      TableStarts(l, posAdj, periodBytes, wakeup, periods);
      assert [] + Chunks(l, 0, posAdj, true) == Chunks(l, 0, posAdj, true);
      if posAdj > 0 {
        ok := SetupBdle(l, 0, posAdj, true);
        if !ok {
          return;
        }
      }
      var i, ofs := 0, posAdj;
      while i < periods
        invariant Valid() && i <= periods
        invariant i < periods ==> ofs == PeriodStart(posAdj, periodBytes, i)
        invariant Current() == if i < periods then TableUpTo(l, posAdj, periodBytes, wakeup, i) else t
      {
        NextPeriod(posAdj, periodBytes, i);
        TableContinues(l, posAdj, periodBytes, wakeup, periods, i);
        if i == periods - 1 && posAdj > 0 {
          ok := SetupBdle(l, ofs, periodBytes - posAdj, false);
          ofs := ofs + periodBytes - posAdj;
        } else {
          ok := SetupBdle(l, ofs, periodBytes, wakeup);
          ofs := ofs + periodBytes;
        }
        if !ok {
          return;
        }
        i := i + 1;
      }
      ok := true;
    }

    /** snd_hdac_dsp_prepare: the stream is borrowed for a firmware download. The table
        describes the buffer in two periods without interrupts; it reaches the end of the
        buffer if and only if two halves do (an odd byte at the end is left out, except
        that three bytes make three periods of one). */
    method DspPrepare(l: Layout, byteSize: nat, pages: bool) returns (err: Prepared)
      requires Valid() && Sound(l) && 2 <= byteSize < TWO_32
      modifies this, bdl
      ensures Valid() && running == old(running)
      ensures err == EBUSY <==> old(running || locked)
      ensures err == EBUSY ==> locked == old(locked) && Current() == old(Current())
      ensures err == ENOMEM <==> !old(running || locked) && !pages
      ensures locked <==> old(locked) || err == READY
      ensures err == READY <==> !old(running || locked) && pages && |DownloadTable(l, byteSize)| <= MAX_BDL_ENTRIES
      ensures err == READY ==> Current() == DownloadTable(l, byteSize)
      ensures err == READY ==>
                && InterruptsAt(Current()) == []
                && (Bytes(Current()) == PhysicalBytes(l, 0, byteSize) <==> byteSize % 2 == 0 || byteSize == 3)
    {
      hide TableOf, Table, Sound, Bytes, InterruptsAt;
      if running || locked {
        return EBUSY;
      }
      locked := true;
      if !pages {
        locked := false;
        return ENOMEM;
      }
      bufsize, periodBytes, noPeriodWakeup := byteSize, byteSize / 2, true;
      var ok := SetupTable(l, false, 0, 0, 0);
      if !ok {
        locked := false;
        return EINVAL;
      }
      var periods := byteSize / (byteSize / 2);
      AtLeastOnePeriod(byteSize, byteSize / 2);
      TableCoversBuffer(l, 0, byteSize / 2, false, periods);
      Halves(l, byteSize);
      err := READY;
    }
  }

  datatype Prepared = READY | EBUSY | ENOMEM | EINVAL

  /** How much of a buffer two halves make up. */
  lemma Halves(l: Layout, n: nat)
    requires n >= 2
    ensures var m := n / (n / 2) * (n / 2);
            m >= 0 && (PhysicalBytes(l, 0, m) == PhysicalBytes(l, 0, n) <==> n % 2 == 0 || n == 3)
  {
    var h := n / 2;
    if n % 2 == 0 {
      DivisionIsUnique(n, h, 2, 0);
    } else if n >= 5 {
      DivisionIsUnique(n, h, 2, 1);
    }
    PhysicalLength(l, n / h * h);
    PhysicalLength(l, n);
  }

  lemma EntryAddress(l: Layout, ofs: nat)
    requires Sound(l)
    ensures l.phys(ofs) + l.addrOffset < TWO_64
  {
  }

  lemma AdjustmentFits(posAdj: nat, rate: nat, frameBytes: nat, periodBytes: nat)
    requires periodBytes > 0
    ensures PosAdjust(posAdj, rate, frameBytes, periodBytes) < periodBytes
  {
  }

  lemma AtLeastOnePeriod(bufsize: nat, periodBytes: nat)
    requires 0 < periodBytes <= bufsize
    ensures bufsize / periodBytes > 0
  {
    assert bufsize == periodBytes * (bufsize / periodBytes) + bufsize % periodBytes;
  }
}
