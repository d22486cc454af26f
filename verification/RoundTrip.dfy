/** Printing and parsing: the report decoded from the driver's verb stream lists what
    the chip and the DSP really did. */
module RoundTrip {
  import opened Options
  import opened Words
  import opened ChipIo
  import opened TraceDecoder
  import S = Scp

  /** The report line that stands for an effect. */
  function LineOf(e: Effect): Line {
    match e
    case Write(a, v) => ChipioWrite(a, v)
    case Read(a) => ChipioRead(a)
    case Message(hdr, data) => ScpLine(hdr, data)
  }

  function Lines(es: seq<Effect>): (r: seq<Line>)
    ensures |r| == |es|
  {
    if es == [] then [] else Lines(Front(es)) + [LineOf(Last(es))]
  }

  /** The report prints the very fields the driver packed into the message's header. */
  lemma ScpLineShowsHeader(h: S.Header, data: seq<u32>)
    requires S.Fits(h)
    ensures ScpLine(S.MakeHeader(h), data) == Line.Scp(h.target, h.source, h.req, h.get, h.device, h.size, data)
  {
    hide S.MakeHeader;
    S.HeaderRoundTrip(h);
  }

  lemma LinesSnoc(es: seq<Effect>, e: Effect)
    ensures Lines(es + [e]) == Lines(es) + [LineOf(e)]
  {
    assert Front(es + [e]) == es;
  }

  /** The decoder after everything sent so far. */
  function Report(d0: Ops, s: State): Ops {
    Decode(d0, s.wire)
  }

  /** Decoder, chip and driver agree: the report is the chip's history, the SCP words
      collected are the DSP's, and while the driver trusts its copy of the address
      register the decoder's is the same. */
  ghost predicate Sync(d0: Ops, s: State) {
    && CacheOk(s)
    && (s.curr != INVALID ==> Report(d0, s).chipAddr == s.curr)
    && Report(d0, s).scp == s.chip.dspMsg
    && Report(d0, s).lines == d0.lines + Lines(s.chip.effects)
  }

  /** The verbs that complete a write are never refused. */
  ghost predicate HighsAtOnce(o: (nat, Verb) -> Fate) {
    forall t, v: Verb :: v.DataHigh? || v.ScpHigh? ==> o(t, v) == Fate(0, true)
  }

  /** The block does not run past the end of the 32-bit address space. */
  predicate NoWrap(x: Action) {
    match x
    case DoWrite(a, _) => a + 4 < TWO_32
    case DoWriteMultiple(a, data) => a + 4 * |data| < TWO_32
    case DoRead(a) => a + 4 < TWO_32
    case DoScp(_) => true
  }

  // ---- one send --------------------------------------------------------------------

  /** Refused verbs appear in the capture too; parsing the same verb again is harmless
      unless it completes a write or a read. */
  lemma {:induction false} RepeatDecodes(d: Ops, v: Verb, n: nat)
    requires n >= 1
    requires n == 1 || Step(Step(d, Encode(v)), Encode(v)) == Step(d, Encode(v))
    ensures Decode(d, Repeat(v, n)) == Step(d, Encode(v))
  {
    hide Step, Encode;
    assert Front(Repeat(v, n)) == Repeat(v, n - 1);
    if n == 1 {
      assert Repeat(v, 0) == [];
    } else {
      RepeatDecodes(d, v, n - 1);
    }
  }

  lemma StepTwice(d: Ops, v: Verb)
    requires !v.DataHigh? && !v.ScpHigh? && !v.ReadData?
    ensures Step(Step(d, Encode(v)), Encode(v)) == Step(d, Encode(v))
  {
    hide Step, Encode;
    var d1 := Step(d, Encode(v));
    match v
    case AddressLow(p) =>
      StepOnAddress(d, p);
      StepOnAddress(d1, p);
    case AddressHigh(p) =>
      StepOnAddress(d, p);
      StepOnAddress(d1, p);
    case DataLow(p) =>
      StepOnData(d, p);
      StepOnData(d1, p);
    case ScpLow(p) =>
      StepOnScp(d, p);
      StepOnScp(d1, p);
    case _ => StepOnPolls(d);
  }

  lemma SendDecodes(d0: Ops, s: State, v: Verb, o: (nat, Verb) -> Fate)
    requires !v.ReadData? && (v.DataHigh? || v.ScpHigh? ==> o(s.t, v).busy == 0)
    ensures Report(d0, Send(s, v, o).0) == Step(Report(d0, s), Encode(v))
  {
    var n := o(s.t, v).busy + 1;
    DecodeConcat(d0, s.wire, Repeat(v, n));
    if n > 1 {
      StepTwice(Report(d0, s), v);
    }
    RepeatDecodes(Report(d0, s), v, n);
  }

  // ---- one access ---------------------------------------------------------------------

  lemma AddressDecodes(d0: Ops, s: State, a: u32, o: (nat, Verb) -> Fate)
    ensures var (r, ok) := SendPair(s, AddressLow(Lo(a)), AddressHigh(Hi(a)), o);
            && (ok ==> Report(d0, r) == Report(d0, s).(chipAddr := a))
            && Report(d0, r).scp == Report(d0, s).scp && Report(d0, r).lines == Report(d0, s).lines
  {
    hide Step, Encode, Decode, Hi, Lo;
    var (s1, ok) := Send(s, AddressLow(Lo(a)), o);
    SendDecodes(d0, s, AddressLow(Lo(a)), o);
    StepOnAddress(Report(d0, s), Lo(a));
    if ok {
      SendDecodes(d0, s1, AddressHigh(Hi(a)), o);
      StepOnAddress(Report(d0, s1), Hi(a));
      HalvesJoin(Report(d0, s).chipAddr, a);
    }
  }

  lemma AddressSync(d0: Ops, s: State, a: u32, o: (nat, Verb) -> Fate)
    requires Sync(d0, s) && a != INVALID
    ensures Sync(d0, WriteAddress(s, a, o).0)
  {
    hide Decode, SendPair, Lines;
    AddressLands(s, a, o);
    AddressDecodes(d0, s, a, o);
  }

  lemma HalvesJoin(x: nat, a: u32)
    ensures Hi(a) * 0x1_0000 + (x / 0x1_0000 % 0x1_0000 * 0x1_0000 + Lo(a)) % 0x1_0000 == a
  {
    var y := x / 0x1_0000 % 0x1_0000;
    assert (y * 0x1_0000 + Lo(a)) % 0x1_0000 == Lo(a);
  }

  lemma DataSync(d0: Ops, s: State, d: u32, o: (nat, Verb) -> Fate)
    requires Sync(d0, s) && HighsAtOnce(o) && s.curr != INVALID && s.curr + 4 < TWO_32
    ensures Sync(d0, WriteData(s, d, o).0)
  {
    hide Step, Encode, Decode, Hi, Lo, Join, Lines;
    DataLands(s, d, o);
    var (s1, ok) := Send(s, DataLow(Lo(d)), o);
    SendDecodes(d0, s, DataLow(Lo(d)), o);
    StepOnData(Report(d0, s), Lo(d));
    if ok {
      SendDecodes(d0, s1, DataHigh(Hi(d)), o);
      StepOnData(Report(d0, s1), Hi(d));
      JoinSplits(d);
      var w, es := Write(s.chip.addr, d), s.chip.effects;
      LinesSnoc(es, w);
      assert d0.lines + Lines(es + [w]) == (d0.lines + Lines(es)) + [LineOf(w)];
    }
  }

  lemma {:induction false} BlockSync(d0: Ops, s: State, data: seq<u32>, o: (nat, Verb) -> Fate)
    requires Sync(d0, s) && HighsAtOnce(o)
    requires data != [] ==> s.curr != INVALID && s.curr + 4 * |data| < TWO_32
    ensures Sync(d0, WriteDataMultiple(s, data, o).0)
    decreases |data|
  {
    if data != [] {
      DataSync(d0, s, data[0], o);
      DataLands(s, data[0], o);
      var (r, ok) := WriteData(s, data[0], o);
      if ok {
        BlockSync(d0, r, data[1..], o);
      }
    }
  }

  lemma PollDecodes(d0: Ops, s: State, v: Verb)
    requires v.DspStatus? || v.ReadData?
    ensures Report(d0, s.(wire := s.wire + [v])) == Step(Report(d0, s), Encode(v))
  {
    hide Step, Encode;
    assert Front(s.wire + [v]) == s.wire;
  }

  lemma ReadSync(d0: Ops, s: State, o: (nat, Verb) -> Fate)
    requires Sync(d0, s) && HighsAtOnce(o) && s.curr != INVALID && s.curr + 4 < TWO_32
    ensures Sync(d0, ReadWord(s, o).0)
  {
    hide Step, Encode, Decode, Hi, Lo, Join, Lines, HighsAtOnce;
    var (s1, ok) := SendPair(s, PostRead, ChipStatus, o);
    SendDecodes(d0, s, PostRead, o);
    SendDecodes(d0, Send(s, PostRead, o).0, ChipStatus, o);
    StepOnPolls(Report(d0, s));
    assert Report(d0, s1) == Report(d0, s) && s1.chip == s.chip;
    if ok {
      PollDecodes(d0, s1, ReadData);
      var e, es := Read(s.chip.addr), s.chip.effects;
      LinesSnoc(es, e);
      assert d0.lines + Lines(es + [e]) == (d0.lines + Lines(es)) + [LineOf(e)];
    }
  }

  // ---- SCP ----------------------------------------------------------------------------

  /** Decoder and DSP agree on the message under construction, and since the k-th effect the
      decoder has printed, behind `base`, what chip and DSP did. */
  ghost predicate Tracks(d0: Ops, s: State, base: seq<Line>, k: nat) {
    && k <= |s.chip.effects|
    && Report(d0, s).scp == s.chip.dspMsg
    && Report(d0, s).lines == base + Lines(s.chip.effects[k..])
  }

  /** A completed word: decoder and DSP close the message at the same word. */
  lemma WordCompletes(d0: Ops, s: State, w: u32, o: (nat, Verb) -> Fate, base: seq<Line>, k: nat)
    requires Tracks(d0, s, base, k) && HighsAtOnce(o)
    requires s.chip.dspLo == Lo(w) && Report(d0, s).scpLo == Some(Lo(w))
    ensures var r := Send(s, ScpHigh(Hi(w)), o).0;
            Tracks(d0, r, base, k) && Report(d0, r).chipAddr == Report(d0, s).chipAddr
  {
    hide Step, Encode, Decode, Lines, Hi, Lo, Join;
    SendDecodes(d0, s, ScpHigh(Hi(w)), o);
    StepOnScp(Report(d0, s), Hi(w));
    JoinSplits(w);
    var msg, es := s.chip.dspMsg + [w], s.chip.effects;
    assert msg[0] / 0x800_0000 % 0x20 == ScpSize(msg[0]);
    var e := Message(msg[0], msg[1..]);
    LinesSnoc(es[k..], e);
    assert (es + [e])[k..] == es[k..] + [e];
    assert base + Lines(es[k..] + [e]) == (base + Lines(es[k..])) + [LineOf(e)];
    PayloadFields(1, Hi(w));
  }

  lemma ScpWordTracks(d0: Ops, s: State, w: u32, o: (nat, Verb) -> Fate, base: seq<Line>, k: nat)
    requires Tracks(d0, s, base, k) && HighsAtOnce(o)
    ensures var r := ScpWord(s, w, o).0;
            Tracks(d0, r, base, k) && Report(d0, r).chipAddr == Report(d0, s).chipAddr
  {
    hide Step, Encode, Decode, Lines, Hi, Lo, Join, HighsAtOnce;
    var s0 := s.(wire := s.wire + [DspStatus]);
    PollDecodes(d0, s, DspStatus);
    StepOnPolls(Report(d0, s));
    assert Tracks(d0, s0, base, k);
    var (s1, ok) := Send(s0, ScpLow(Lo(w)), o);
    SendDecodes(d0, s0, ScpLow(Lo(w)), o);
    StepOnScp(Report(d0, s0), Lo(w));
    assert Tracks(d0, s1, base, k);
    if ok {
      WordCompletes(d0, s1, w, o, base, k);
      var s2 := Send(s1, ScpHigh(Hi(w)), o).0;
      PollDecodes(d0, s2, DspStatus);
      StepOnPolls(Report(d0, s2));
    }
  }

  lemma {:induction false} ScpTracks(d0: Ops, s: State, ws: seq<u32>, o: (nat, Verb) -> Fate, base: seq<Line>, k: nat)
    requires Tracks(d0, s, base, k) && HighsAtOnce(o)
    ensures var r := ScpWords(s, ws, o).0;
            Tracks(d0, r, base, k) && Report(d0, r).chipAddr == Report(d0, s).chipAddr
    decreases |ws|
  {
    hide Tracks, ScpWord, Report;
    if ws != [] {
      ScpWordTracks(d0, s, ws[0], o, base, k);
      var (r, ok) := ScpWord(s, ws[0], o);
      if ok {
        ScpTracks(d0, r, ws[1..], o, base, k);
      }
    }
  }

  lemma ScpSync(d0: Ops, s: State, ws: seq<u32>, o: (nat, Verb) -> Fate)
    requires Sync(d0, s) && HighsAtOnce(o)
    ensures Sync(d0, ScpWords(s, ws, o).0)
  {
    hide Report, ScpWords, Lines;
    var r := ScpWords(s, ws, o).0;
    assert s.chip.effects[0..] == s.chip.effects && r.chip.effects[0..] == r.chip.effects;
    ScpTracks(d0, s, ws, o, d0.lines, 0);
    ScpKeepsCache(s, ws, o);
  }

  // ---- whole runs -----------------------------------------------------------------------

  lemma PerformSync(d0: Ops, s: State, x: Action, o: (nat, Verb) -> Fate)
    requires Sync(d0, s) && HighsAtOnce(o) && (x.DoScp? || Proper(x)) && NoWrap(x)
    ensures Sync(d0, Perform(s, x, o).0)
  {
    hide Sync;
    match x
    case DoScp(words) => ScpSync(d0, s, words, o);
    case _ =>
      AddressSync(d0, s, x.a, o);
      var (r, ok) := WriteAddress(s, x.a, o);
      if ok {
        match x
        case DoWrite(a, d) => DataSync(d0, r, d, o);
        case DoWriteMultiple(a, data) => BlockSync(d0, r, data, o);
        case DoRead(a) => ReadSync(d0, r, o);
      }
  }

  /** Whatever is refused, retried or given up (as long as no verb that completes a write
      is), the decoded report lists exactly what chip and DSP did, at the right addresses. */
  lemma ReportIsTruthful(d0: Ops, s: State, xs: seq<Action>, o: (nat, Verb) -> Fate)
    requires s.curr == INVALID && s.wire == [] && s.chip.effects == [] && s.chip.dspMsg == d0.scp == []
    requires HighsAtOnce(o)
    requires forall i :: 0 <= i < |xs| ==> (xs[i].DoScp? || Proper(xs[i])) && NoWrap(xs[i])
    ensures var r := PerformAll(s, xs, o);
            Report(d0, r).lines == d0.lines + Lines(r.chip.effects)
  {
    RunSync(d0, s, xs, o);
  }

  lemma {:induction false} RunSync(d0: Ops, s: State, xs: seq<Action>, o: (nat, Verb) -> Fate)
    requires s.curr == INVALID && s.wire == [] && s.chip.effects == [] && s.chip.dspMsg == d0.scp == []
    requires HighsAtOnce(o)
    requires forall i :: 0 <= i < |xs| ==> (xs[i].DoScp? || Proper(xs[i])) && NoWrap(xs[i])
    ensures Sync(d0, PerformAll(s, xs, o))
  {
    if xs != [] {
      hide Sync;
      RunSync(d0, s, Front(xs), o);
      PerformSync(d0, PerformAll(s, Front(xs), o), Last(xs), o);
    }
  }

  /** Nothing is refused. */
  ghost predicate AllAtOnce(o: (nat, Verb) -> Fate) {
    forall t, v :: o(t, v) == Fate(0, true)
  }

  /** The words of a message so far, still short of what the header asks for. */
  lemma {:induction false} MessageArrives(s: State, ws: seq<u32>, o: (nat, Verb) -> Fate)
    requires AllAccepted(o) && ws != []
    requires var msg := s.chip.dspMsg + ws; |msg| == 1 + ScpSize(msg[0])
    ensures var msg := s.chip.dspMsg + ws;
            var r := ScpWords(s, ws, o).0;
            r.chip.effects == s.chip.effects + [Message(msg[0], msg[1..])] && r.chip.dspMsg == []
    decreases |ws|
  {
    hide Hi, Lo, Join, ScpSize;
    JoinSplits(ws[0]);
    var (r, ok) := ScpWord(s, ws[0], o);
    assert ok;
    if |ws| > 1 {
      assert r.chip.dspMsg == s.chip.dspMsg + [ws[0]];
      assert r.chip.dspMsg + ws[1..] == s.chip.dspMsg + ws;
      MessageArrives(r, ws[1..], o);
    } else {
      assert s.chip.dspMsg + ws == s.chip.dspMsg + [ws[0]];
    }
  }

  /** When no verb is given up, chip and DSP do exactly what was asked for, in order, however
      often verbs are refused on the way. */
  lemma {:induction false} AllArrives(s: State, xs: seq<Action>, o: (nat, Verb) -> Fate)
    requires s.curr == INVALID && s.chip.effects == [] && s.chip.dspMsg == [] && AllAccepted(o)
    requires forall i :: 0 <= i < |xs| ==> Proper(xs[i])
    ensures var r := PerformAll(s, xs, o);
            r.chip.effects == WantedAll(xs) && r.chip.dspMsg == [] && CacheOk(r)
  {
    if xs != [] {
      var m, x := PerformAll(s, Front(xs), o), Last(xs);
      AllArrives(s, Front(xs), o);
      PerformKeepsCache(m, x, o);
      if x.DoScp? {
        MessageArrives(m, x.words, o);
        assert m.chip.dspMsg + x.words == x.words;
      } else {
        var n := PerformLands(m, x, o);
        if x.DoWriteMultiple? {
          BlockSucceeds(WriteAddress(m, x.a, o).0, x.data, o);
        }
      }
    }
  }

  lemma {:induction false} EveryHighPrints(d: Ops, p: u16, n: nat)
    ensures |Decode(d, Repeat(DataHigh(p), n)).lines| == |d.lines| + n
  {
    hide Step, Encode;
    if n == 0 {
      assert Repeat(DataHigh(p), 0) == [];
    } else {
      assert Front(Repeat(DataHigh(p), n)) == Repeat(DataHigh(p), n - 1);
      EveryHighPrints(d, p, n - 1);
      StepOnData(Decode(d, Repeat(DataHigh(p), n - 1)), p);
    }
  }

  /** A data word whose verbs all get through in the end adds the one right line exactly
      when its completing verb is not refused on the way. */
  lemma DataReportedIff(d0: Ops, s: State, d: u32, o: (nat, Verb) -> Fate)
    requires AllAccepted(o)
    ensures var r := WriteData(s, d, o).0;
            var line := ChipioWrite(Report(d0, s).chipAddr, d);
            Report(d0, r).lines == Report(d0, s).lines + [line] <==> o(s.t + 1, DataHigh(Hi(d))).busy == 0
  {
    hide Step, Encode, Hi, Lo, Join, Decode;
    var s1 := Send(s, DataLow(Lo(d)), o).0;
    SendDecodes(d0, s, DataLow(Lo(d)), o);
    StepOnData(Report(d0, s), Lo(d));
    var high := DataHigh(Hi(d));
    var b := o(s1.t, high).busy;
    DecodeConcat(d0, s1.wire, Repeat(high, b + 1));
    EveryHighPrints(Report(d0, s1), Hi(d), b + 1);
    if b == 0 {
      SendDecodes(d0, s1, high, o);
      StepOnData(Report(d0, s1), Hi(d));
      JoinSplits(d);
    }
  }

  /** Where the decoder can be wrong: it cannot see refusals, so it prints one line for
      every copy of the verb that completes a write. For a write whose verbs all get
      through in the end, the report is right exactly when that verb was not refused. */
  lemma WriteReportedIff(d0: Ops, s: State, a: u32, d: u32, o: (nat, Verb) -> Fate)
    requires CacheOk(s) && HitIsTrue(s, a) && (s.curr == a ==> Report(d0, s).chipAddr == a)
    requires AllAccepted(o)
    ensures var r := Perform(s, DoWrite(a, d), o).0;
            var sends := if s.curr == a then 1 else 3;
            && r.chip.effects == s.chip.effects + [Write(a, d)]
            && (Report(d0, r).lines == Report(d0, s).lines + [ChipioWrite(a, d)] <==> o(s.t + sends, DataHigh(Hi(d))).busy == 0)
  {
    hide Decode, Execute, Hi, Lo;
    var s1 := WriteAddress(s, a, o).0;
    assert WriteAddress(s, a, o).1 && s1.t == s.t + if s.curr == a then 0 else 2;
    AddressDecodes(d0, s, a, o);
    AddressLands(s, a, o);
    assert Report(d0, s1).chipAddr == a && Report(d0, s1).lines == Report(d0, s).lines;
    hide WriteAddress, SendPair;
    DataLands(s1, d, o);
    DataReportedIff(d0, s1, d, o);
  }

  // ---- accepted runs -------------------------------------------------------------------

  /** A data word adds one line, at the decoder's own address, which it then advances
      without wrapping; driver and chip advance theirs in 32 bits. */
  lemma WriteDecodes(d0: Ops, s: State, d: u32, o: (nat, Verb) -> Fate)
    requires AllAtOnce(o)
    ensures var (r, ok) := WriteData(s, d, o);
            && ok && r.curr == Add32(s.curr, 4)
            && Report(d0, r).chipAddr == Report(d0, s).chipAddr + 4 && Report(d0, r).scp == Report(d0, s).scp
            && Report(d0, r).lines == Report(d0, s).lines + [ChipioWrite(Report(d0, s).chipAddr, d)]
  {
    hide Step, Encode, Hi, Lo, Join, Decode;
    var s1 := Send(s, DataLow(Lo(d)), o).0;
    SendDecodes(d0, s, DataLow(Lo(d)), o);
    StepOnData(Report(d0, s), Lo(d));
    SendDecodes(d0, s1, DataHigh(Hi(d)), o);
    StepOnData(Report(d0, s1), Hi(d));
    JoinSplits(d);
  }

  lemma AddressAccepted(s: State, a: u32, o: (nat, Verb) -> Fate)
    requires AllAtOnce(o)
    ensures WriteAddress(s, a, o).1
  {
  }

  /** How many words an access moves. */
  function Count(x: Action): nat {
    match x
    case DoWriteMultiple(_, data) => |data|
    case DoScp(_) => 0
    case _ => 1
  }

  /** The driver's copy after an accepted run: 32 bits. */
  function CopyAfter(xs: seq<Action>): u32 {
    if xs == [] then INVALID
    else if Last(xs).DoScp? then CopyAfter(Front(xs))
    else (Last(xs).a + 4 * Count(Last(xs))) % TWO_32
  }

  /** Where the decoder believes access x to start, after the run xs: at x's address if its
      address verbs were sent, else where the decoder stands. */
  function StartOf(xs: seq<Action>, x: Action, from: nat): nat
    requires !x.DoScp?
    decreases |xs|, 1
  {
    if CopyAfter(xs) == x.a then DecoderAt(xs, from) else x.a
  }

  /** Where the decoder stands after an accepted run: it never wraps around. */
  function DecoderAt(xs: seq<Action>, from: nat): nat
    decreases |xs|, 0
  {
    if xs == [] then from
    else if Last(xs).DoScp? then DecoderAt(Front(xs), from)
    else StartOf(Front(xs), Last(xs), from) + 4 * Count(Last(xs))
  }

  /** No access passes the top of the 32-bit address space inside itself, and none that
      starts with a cache hit follows one that ended at the top or beyond. */
  predicate InRange(xs: seq<Action>, from: nat) {
    xs == [] ||
    (InRange(Front(xs), from) &&
     (Last(xs).DoScp? || Count(Last(xs)) == 0 || StartOf(Front(xs), Last(xs), from) + 4 * (Count(Last(xs)) - 1) < TWO_32))
  }

  /** The lines of a block written from the decoder's address `at` on. */
  function BlockLines(at: nat, data: seq<u32>): (r: seq<Line>)
    ensures |r| == |data|
    decreases |data|
  {
    if data == [] then [] else [ChipioWrite(at, data[0])] + BlockLines(at + 4, data[1..])
  }

  function AccessLines(x: Action, at: nat): seq<Line> {
    match x
    case DoWrite(_, d) => [ChipioWrite(at, d)]
    case DoWriteMultiple(_, data) => BlockLines(at, data)
    case DoRead(_) => [ChipioRead(at)]
    case DoScp(words) => Lines(Wanted(x))
  }

  function Printed(xs: seq<Action>, from: nat): seq<Line> {
    if xs == [] then []
    else Printed(Front(xs), from) +
         AccessLines(Last(xs), if Last(xs).DoScp? then 0 else StartOf(Front(xs), Last(xs), from))
  }

  lemma {:induction false} BlockDecodes(d0: Ops, s: State, data: seq<u32>, o: (nat, Verb) -> Fate)
    requires AllAtOnce(o)
    ensures var (r, ok) := WriteDataMultiple(s, data, o);
            && ok && r.curr == (s.curr + 4 * |data|) % TWO_32
            && Report(d0, r).chipAddr == Report(d0, s).chipAddr + 4 * |data| && Report(d0, r).scp == Report(d0, s).scp
            && Report(d0, r).lines == Report(d0, s).lines + BlockLines(Report(d0, s).chipAddr, data)
    decreases |data|
  {
    hide WriteData, Report;
    if data != [] {
      var r := WriteData(s, data[0], o).0;
      var at := Report(d0, s).chipAddr;
      WriteDecodes(d0, s, data[0], o);
      BlockDecodes(d0, r, data[1..], o);
      assert (Report(d0, s).lines + [ChipioWrite(at, data[0])]) + BlockLines(at + 4, data[1..])
          == Report(d0, s).lines + BlockLines(at, data);
    }
  }

  lemma ReadDecodes(d0: Ops, s: State, o: (nat, Verb) -> Fate)
    requires AllAtOnce(o)
    ensures var (r, ok, _) := ReadWord(s, o);
            && ok && r.curr == Add32(s.curr, 4)
            && Report(d0, r).chipAddr == Report(d0, s).chipAddr + 4 && Report(d0, r).scp == Report(d0, s).scp
            && Report(d0, r).lines == Report(d0, s).lines + [ChipioRead(Report(d0, s).chipAddr)]
  {
    hide Step, Encode, Decode, Lines;
    var s1 := SendPair(s, PostRead, ChipStatus, o).0;
    SendDecodes(d0, s, PostRead, o);
    SendDecodes(d0, Send(s, PostRead, o).0, ChipStatus, o);
    StepOnPolls(Report(d0, s));
    PollDecodes(d0, s1, ReadData);
  }

  /** One accepted access, after its address. */
  lemma BodyDecodes(d0: Ops, s: State, x: Action, o: (nat, Verb) -> Fate)
    requires AllAtOnce(o) && !x.DoScp? && s.curr == x.a
    ensures var r := Perform(s, x, o).0;
            && r.curr == (x.a + 4 * Count(x)) % TWO_32
            && Report(d0, r).chipAddr == Report(d0, s).chipAddr + 4 * Count(x) && Report(d0, r).scp == Report(d0, s).scp
            && Report(d0, r).lines == Report(d0, s).lines + AccessLines(x, Report(d0, s).chipAddr)
  {
    hide Report, WriteData, ReadWord, WriteDataMultiple, BlockLines;
    match x
    case DoWrite(a, d) => WriteDecodes(d0, s, d, o);
    case DoWriteMultiple(a, data) => BlockDecodes(d0, s, data, o);
    case DoRead(a) => ReadDecodes(d0, s, o);
  }

  lemma AccessDecodes(d0: Ops, s: State, x: Action, o: (nat, Verb) -> Fate)
    requires AllAtOnce(o) && !x.DoScp?
    ensures var r := Perform(s, x, o).0;
            var at := if s.curr == x.a then Report(d0, s).chipAddr else x.a;
            && r.curr == (x.a + 4 * Count(x)) % TWO_32
            && Report(d0, r).chipAddr == at + 4 * Count(x) && Report(d0, r).scp == Report(d0, s).scp
            && Report(d0, r).lines == Report(d0, s).lines + AccessLines(x, at)
  {
    var s1 := WriteAddress(s, x.a, o).0;
    AddressAccepted(s, x.a, o);
    AddressDecodes(d0, s, x.a, o);
    assert s1.curr == x.a && Report(d0, s1).scp == Report(d0, s).scp && Report(d0, s1).lines == Report(d0, s).lines;
    assert Report(d0, s1).chipAddr == if s.curr == x.a then Report(d0, s).chipAddr else x.a;
    assert WriteAddress(s1, x.a, o) == (s1, true);
    hide Report, WriteAddress, WriteData, ReadWord, WriteDataMultiple, AccessLines;
    assert Perform(s, x, o).0 == Perform(s1, x, o).0;
    BodyDecodes(d0, s1, x, o);
  }

  lemma MessageDecodes(d0: Ops, s: State, x: Action, o: (nat, Verb) -> Fate)
    requires AllAtOnce(o) && x.DoScp? && Proper(x) && s.chip.dspMsg == Report(d0, s).scp == []
    ensures var r := Perform(s, x, o).0;
            && r.curr == s.curr && Report(d0, r).chipAddr == Report(d0, s).chipAddr
            && r.chip.dspMsg == Report(d0, r).scp == []
            && Report(d0, r).lines == Report(d0, s).lines + AccessLines(x, 0)
  {
    var k, es := |s.chip.effects|, s.chip.effects;
    assert es[k..] == [] && Report(d0, s).lines + [] == Report(d0, s).lines;
    assert s.chip.dspMsg + x.words == x.words;
    hide Report, ScpWords, ScpSize;
    ScpTracks(d0, s, x.words, o, Report(d0, s).lines, k);
    ScpKeepsCache(s, x.words, o);
    MessageArrives(s, x.words, o);
    assert (es + Wanted(x))[k..] == Wanted(x);
  }

  /** Driver, decoder and report after the accepted run xs. */
  ghost predicate Decoded(d0: Ops, r: State, xs: seq<Action>) {
    && r.curr == CopyAfter(xs) && Report(d0, r).chipAddr == DecoderAt(xs, d0.chipAddr)
    && r.chip.dspMsg == Report(d0, r).scp == []
    && Report(d0, r).lines == d0.lines + Printed(xs, d0.chipAddr)
  }

  lemma MessageExtends(d0: Ops, m: State, xs: seq<Action>, o: (nat, Verb) -> Fate)
    requires xs != [] && Last(xs).DoScp? && Proper(Last(xs)) && Decoded(d0, m, Front(xs)) && AllAtOnce(o)
    ensures Decoded(d0, Perform(m, Last(xs), o).0, xs)
  {
    MessageDecodes(d0, m, Last(xs), o);
    hide Report, Perform, AccessLines, Proper, AllAtOnce;
    var printed, extra := Printed(Front(xs), d0.chipAddr), AccessLines(Last(xs), 0);
    assert (d0.lines + printed) + extra == d0.lines + (printed + extra);
  }

  lemma AccessExtends(d0: Ops, m: State, xs: seq<Action>, o: (nat, Verb) -> Fate)
    requires xs != [] && !Last(xs).DoScp? && Decoded(d0, m, Front(xs)) && AllAtOnce(o)
    ensures Decoded(d0, Perform(m, Last(xs), o).0, xs)
  {
    hide Report, Perform, AccessLines, AllAtOnce, Count;
    var x := Last(xs);
    AccessDecodes(d0, m, x, o);
    AccessKeepsMessage(m, x, o);
    var at := StartOf(Front(xs), x, d0.chipAddr);
    var printed, extra := Printed(Front(xs), d0.chipAddr), AccessLines(x, at);
    assert (d0.lines + printed) + extra == d0.lines + (printed + extra);
  }

  /** What is printed for an accepted run. */
  lemma {:induction false} RunDecodes(d0: Ops, s: State, xs: seq<Action>, o: (nat, Verb) -> Fate)
    requires s.curr == INVALID && s.wire == [] && s.chip.dspMsg == d0.scp == [] && AllAtOnce(o)
    requires forall i :: 0 <= i < |xs| ==> Proper(xs[i])
    ensures Decoded(d0, PerformAll(s, xs, o), xs)
  {
    if xs == [] {
      assert Decode(d0, []) == d0 && d0.lines + [] == d0.lines;
    } else {
      hide Decoded, Perform, Proper, AllAtOnce;
      var m := PerformAll(s, Front(xs), o);
      RunDecodes(d0, s, Front(xs), o);
      if Last(xs).DoScp? {
        MessageExtends(d0, m, xs, o);
      } else {
        AccessExtends(d0, m, xs, o);
      }
    }
  }

  lemma {:induction false} BlockKeepsMessage(s: State, data: seq<u32>, o: (nat, Verb) -> Fate)
    ensures WriteDataMultiple(s, data, o).0.chip.dspMsg == s.chip.dspMsg
    decreases |data|
  {
    if data != [] {
      BlockKeepsMessage(WriteData(s, data[0], o).0, data[1..], o);
    }
  }

  lemma AccessKeepsMessage(s: State, x: Action, o: (nat, Verb) -> Fate)
    requires !x.DoScp?
    ensures Perform(s, x, o).0.chip.dspMsg == s.chip.dspMsg
  {
    if x.DoWriteMultiple? {
      BlockKeepsMessage(WriteAddress(s, x.a, o).0, x.data, o);
    }
  }

  // ---- when the printed lines are the right ones -------------------------------------------

  lemma WrapAdds(x: nat, a: u32, n: nat)
    requires x % TWO_32 == a
    ensures (x + n) % TWO_32 == (a + n) % TWO_32
  {
  }

  /** The decoder is off by whole turns of the address space. */
  lemma {:induction false} DecoderModulo(xs: seq<Action>, from: nat)
    requires forall i :: 0 <= i < |xs| ==> Proper(xs[i])
    ensures CopyAfter(xs) == INVALID || DecoderAt(xs, from) % TWO_32 == CopyAfter(xs)
  {
    if xs != [] {
      DecoderModulo(Front(xs), from);
      var x := Last(xs);
      if !x.DoScp? {
        StartModulo(Front(xs), x, from);
        WrapAdds(StartOf(Front(xs), x, from), x.a, 4 * Count(x));
      }
    }
  }

  lemma StartModulo(xs: seq<Action>, x: Action, from: nat)
    requires !x.DoScp? && x.a != INVALID
    requires CopyAfter(xs) == INVALID || DecoderAt(xs, from) % TWO_32 == CopyAfter(xs)
    ensures StartOf(xs, x, from) % TWO_32 == x.a
  {
  }

  lemma {:induction false} LinesConcat(s: seq<Effect>, t: seq<Effect>)
    ensures Lines(s + t) == Lines(s) + Lines(t)
  {
    if t == [] {
      assert s + t == s;
    } else {
      LinesConcat(s, Front(t));
      assert s + t == (s + Front(t)) + [Last(t)];
      LinesSnoc(s + Front(t), Last(t));
    }
  }

  lemma {:induction false} BlockLinesRightIff(at: nat, a: u32, data: seq<u32>)
    requires at % TWO_32 == a
    ensures BlockLines(at, data) == Lines(Block(a, data)) <==> data == [] || at + 4 * (|data| - 1) < TWO_32
    decreases |data|
  {
    if data != [] {
      WrapAdds(at, a, 4);
      BlockLinesRightIff(at + 4, Add32(a, 4), data[1..]);
      var e, rest := Write(a, data[0]), Block(Add32(a, 4), data[1..]);
      LinesConcat([e], rest);
      LinesSnoc([], e);
      assert [] + [e] == [e];
      var l, r := BlockLines(at, data), Lines(Block(a, data));
      assert r == [ChipioWrite(a, data[0])] + Lines(rest);
      assert l[0] == ChipioWrite(at, data[0]) && l[1..] == BlockLines(at + 4, data[1..]);
      assert r[0] == ChipioWrite(a, data[0]) && r[1..] == Lines(rest);
    }
  }

  lemma AccessLinesRightIff(x: Action, at: nat)
    requires !x.DoScp? && at % TWO_32 == x.a
    ensures AccessLines(x, at) == Lines(Wanted(x)) <==> Count(x) == 0 || at + 4 * (Count(x) - 1) < TWO_32
    ensures |AccessLines(x, at)| == |Lines(Wanted(x))|
  {
    match x
    case DoWrite(a, d) => OneLine(Write(a, d));
    case DoRead(a) => OneLine(Read(a));
    case DoWriteMultiple(a, data) =>
      BlockLinesRightIff(at, a, data);
      BlockPrefix(a, data, 0);
  }

  lemma OneLine(e: Effect)
    ensures Lines([e]) == [LineOf(e)]
  {
    assert Front([e]) == [] && Last([e]) == e;
  }

  lemma {:induction false} PrintedRightIff(xs: seq<Action>, from: nat)
    requires forall i :: 0 <= i < |xs| ==> Proper(xs[i])
    ensures |Printed(xs, from)| == |Lines(WantedAll(xs))|
    ensures Printed(xs, from) == Lines(WantedAll(xs)) <==> InRange(xs, from)
  {
    if xs != [] {
      hide Lines, AccessLines, StartOf, Count;
      var x := Last(xs);
      var at := if x.DoScp? then 0 else StartOf(Front(xs), x, from);
      PrintedRightIff(Front(xs), from);
      LinesConcat(WantedAll(Front(xs)), Wanted(x));
      var p, q := Printed(Front(xs), from), Lines(WantedAll(Front(xs)));
      var u, v := AccessLines(x, at), Lines(Wanted(x));
      if x.DoScp? {
        MessageLines(x);
      } else {
        DecoderModulo(Front(xs), from);
        StartModulo(Front(xs), x, from);
        AccessLinesRightIff(x, at);
      }
      EqualParts(p, u, q, v);
    }
  }

  lemma MessageLines(x: Action)
    requires x.DoScp?
    ensures AccessLines(x, 0) == Lines(Wanted(x))
  {
  }

  lemma EqualParts<T>(p: seq<T>, u: seq<T>, q: seq<T>, v: seq<T>)
    requires |p| == |q|
    ensures p + u == q + v <==> p == q && u == v
  {
    if p + u == q + v {
      assert p == (p + u)[..|p|] && q == (q + v)[..|q|];
      assert u == (p + u)[|p|..] && v == (q + v)[|q|..];
    }
  }

  /** The round trip: when every verb is accepted at first try, decoding the verb stream of
      any sequence of writes, block writes, reads and SCP sends gives back exactly that
      sequence, although address verbs are left out on every cache hit, if and only if no
      access runs over the top of the 32-bit address space and none that ends there is
      followed by a cache hit. */
  lemma DecodingUndoesPrintingIff(d0: Ops, s: State, xs: seq<Action>, o: (nat, Verb) -> Fate)
    requires s.curr == INVALID && s.wire == [] && s.chip.effects == [] && s.chip.dspMsg == d0.scp == []
    requires AllAtOnce(o)
    requires forall i :: 0 <= i < |xs| ==> Proper(xs[i])
    ensures PerformAll(s, xs, o).chip.effects == WantedAll(xs)
    ensures Report(d0, PerformAll(s, xs, o)).lines == d0.lines + Lines(WantedAll(xs)) <==> InRange(xs, d0.chipAddr)
  {
    hide Report, PerformAll, Printed, InRange, Lines, WantedAll, Proper;
    RunDecodes(d0, s, xs, o);
    AllArrives(s, xs, o);
    PrintedRightIff(xs, d0.chipAddr);
    EqualParts(d0.lines, Printed(xs, d0.chipAddr), d0.lines, Lines(WantedAll(xs)));
  }
}
