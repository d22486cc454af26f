/** Chip I/O of the CA0132: 32-bit accesses squeezed through 16-bit verbs. The chip
    advances its address register by itself, and the driver keeps a copy of that
    register so that it can leave the address verbs out. */
module ChipIo {
  import opened Words

  const INVALID: u32 := 0xFFFF_FFFF
  const WIDGET_CHIP_CTRL := 0x15
  const WIDGET_DSP_CTRL := 0x16

  /** The verbs that chip I/O and SCP sends are made of. */
  datatype Verb =
    | AddressLow(p: u16) | AddressHigh(p: u16)
    | DataLow(p: u16) | DataHigh(p: u16)
    | PostRead | ChipStatus | ReadData
    | ScpLow(p: u16) | ScpHigh(p: u16) | DspStatus

  /** What chip and DSP observably do, in order. */
  datatype Effect =
    | Write(addr: int, val: u32)
    | Read(addr: int)
    | Message(hdr: u32, data: seq<u32>)

  function Hi(x: u32): u16 {
    x / 0x1_0000
  }

  function Lo(x: u32): u16 {
    x % 0x1_0000
  }

  function Join(hi: u16, lo: u16): (x: u32)
    ensures Hi(x) == hi && Lo(x) == lo
  {
    hi * 0x1_0000 + lo
  }

  lemma JoinSplits(x: u32)
    ensures Join(Hi(x), Lo(x)) == x
  {
  }

  /** How many data words follow an SCP header. */
  function ScpSize(hdr: u32): nat {
    hdr / 0x800_0000
  }

  /** How one verb fares: `busy` refusals, then acceptance or, at the deadline, -EIO.
      A refused verb is not executed. */
  datatype Fate = Fate(busy: nat, accepted: bool)

  /** The hardware behind the two widgets: address and data registers and memory of the
      chip, the SCP message under construction in the DSP, and all it has done so far. */
  datatype Chip = Chip(addr: u32, lo: u16, mem: map<u32, u32>, dspLo: u16, dspMsg: seq<u32>, effects: seq<Effect>)

  /** The driver's copy of the address register, the hardware, all verbs sent so far, and
      the number of sends. The environment's choices are a function of that number and
      the verb. */
  datatype State = State(curr: u32, chip: Chip, wire: seq<Verb>, t: nat)

  function Load(mem: map<u32, u32>, a: u32): u32 {
    if a in mem then mem[a] else 0
  }

  /** The chip and the DSP execute a verb. */
  function Execute(c: Chip, v: Verb): Chip {
    match v
    case AddressLow(p) => c.(addr := Join(Hi(c.addr), p))
    case AddressHigh(p) => c.(addr := Join(p, Lo(c.addr)))
    case DataLow(p) => c.(lo := p)
    case DataHigh(p) =>
      var d := Join(p, c.lo);
      c.(mem := c.mem[c.addr := d], effects := c.effects + [Write(c.addr, d)], addr := Add32(c.addr, 4))
    case ReadData => c.(effects := c.effects + [Read(c.addr)], addr := Add32(c.addr, 4))
    case ScpLow(p) => c.(dspLo := p)
    case ScpHigh(p) =>
      var msg := c.dspMsg + [Join(p, c.dspLo)];
      if |msg| >= 1 + ScpSize(msg[0]) then
        c.(dspMsg := [], effects := c.effects + [Message(msg[0], msg[1..])])
      else
        c.(dspMsg := msg)
    case PostRead => c
    case ChipStatus => c
    case DspStatus => c
  }

  function Repeat(v: Verb, n: nat): (r: seq<Verb>)
    ensures |r| == n && forall i :: 0 <= i < n ==> r[i] == v
  {
    seq(n, _ => v)
  }

  // ---- the driver's functions -------------------------------------------------

  /** chipio_send and dspio_send. */
  function Send(s: State, v: Verb, o: (nat, Verb) -> Fate): (State, bool) {
    var f := o(s.t, v);
    var s1 := s.(wire := s.wire + Repeat(v, f.busy + 1), t := s.t + 1);
    (if f.accepted then s1.(chip := Execute(s1.chip, v)) else s1, f.accepted)
  }

  /** Two verbs, the second only if the first got through. */
  function SendPair(s: State, v1: Verb, v2: Verb, o: (nat, Verb) -> Fate): (State, bool) {
    var (s1, ok1) := Send(s, v1, o);
    if ok1 then Send(s1, v2, o) else (s1, false)
  }

  /** chipio_write_address. */
  function WriteAddress(s: State, a: u32, o: (nat, Verb) -> Fate): (State, bool) {
    if s.curr == a then
      (s, true)
    else
      var (r, ok) := SendPair(s, AddressLow(Lo(a)), AddressHigh(Hi(a)), o);
      (r.(curr := if ok then a else INVALID), ok)
  }

  /** chipio_write_data. */
  function WriteData(s: State, d: u32, o: (nat, Verb) -> Fate): (State, bool) {
    var (r, ok) := SendPair(s, DataLow(Lo(d)), DataHigh(Hi(d)), o);
    (r.(curr := if ok then Add32(s.curr, 4) else INVALID), ok)
  }

  /** chipio_write_data_multiple. */
  function WriteDataMultiple(s: State, data: seq<u32>, o: (nat, Verb) -> Fate): (State, bool)
    decreases |data|
  {
    if data == [] then
      (s, true)
    else
      var (r, ok) := WriteData(s, data[0], o);
      if ok then WriteDataMultiple(r, data[1..], o) else (r, false)
  }

  /** chipio_read_data: the last verb is a plain codec read without a status check. */
  function ReadWord(s: State, o: (nat, Verb) -> Fate): (State, bool, u32) {
    var (r, ok) := SendPair(s, PostRead, ChipStatus, o);
    if ok then
      var r1 := r.(chip := Execute(r.chip, ReadData), wire := r.wire + [ReadData], curr := Add32(s.curr, 4));
      (r1, true, Load(r.chip.mem, r.chip.addr))
    else
      (r.(curr := INVALID), false, 0)
  }

  /** What the rest of the driver asks for: chipio_write, chipio_write_multiple,
      chipio_read, and one SCP message written word by word. */
  datatype Action =
    | DoWrite(a: u32, d: u32)
    | DoWriteMultiple(a: u32, data: seq<u32>)
    | DoRead(a: u32)
    | DoScp(words: seq<u32>)

  /** dspio_write: status polls until the DSP is ready, the word, a status check that fails
      when the DSP's command queue is full. Of the waiting only its last poll is kept. */
  function ScpWord(s: State, w: u32, o: (nat, Verb) -> Fate): (State, bool) {
    var s0 := s.(wire := s.wire + [DspStatus]);
    var (s1, ok) := SendPair(s0, ScpLow(Lo(w)), ScpHigh(Hi(w)), o);
    if ok then (CheckQueue(s1), o(s1.t, DspStatus).accepted) else (s1, false)
  }

  /** The closing status check is sent whatever its answer. */
  function CheckQueue(s: State): State {
    s.(wire := s.wire + [DspStatus], t := s.t + 1)
  }

  /** dspio_write_multiple. */
  function ScpWords(s: State, ws: seq<u32>, o: (nat, Verb) -> Fate): (State, bool)
    decreases |ws|
  {
    if ws == [] then
      (s, true)
    else
      var (r, ok) := ScpWord(s, ws[0], o);
      if ok then ScpWords(r, ws[1..], o) else (r, false)
  }

  function Perform(s: State, x: Action, o: (nat, Verb) -> Fate): (State, bool) {
    match x
    case DoWrite(a, d) =>
      var (r, ok) := WriteAddress(s, a, o);
      if ok then WriteData(r, d, o) else (r, false)
    case DoWriteMultiple(a, data) =>
      var (r, ok) := WriteAddress(s, a, o);
      if ok then WriteDataMultiple(r, data, o) else (r, false)
    case DoRead(a) =>
      var (r, ok) := WriteAddress(s, a, o);
      if ok then var (r1, ok1, _) := ReadWord(r, o); (r1, ok1) else (r, false)
    case DoScp(words) => ScpWords(s, words, o)
  }

  /** Each action under chipio_mutex runs to its end before the next starts. */
  function PerformAll(s: State, xs: seq<Action>, o: (nat, Verb) -> Fate): State {
    if xs == [] then s else Perform(PerformAll(s, Front(xs), o), Last(xs), o).0
  }

  // ---- what the caller wants ----------------------------------------------------

  /** The writes of a block, one word every four bytes. */
  function Block(a: u32, data: seq<u32>): seq<Effect>
    decreases |data|
  {
    if data == [] then [] else [Write(a, data[0])] + Block(Add32(a, 4), data[1..])
  }

  function Wanted(x: Action): seq<Effect> {
    match x
    case DoWrite(a, d) => [Write(a, d)]
    case DoWriteMultiple(a, data) => Block(a, data)
    case DoRead(a) => [Read(a)]
    case DoScp(words) => if words == [] then [] else [Message(words[0], words[1..])]
  }

  function WantedAll(xs: seq<Action>): seq<Effect> {
    if xs == [] then [] else WantedAll(Front(xs)) + Wanted(Last(xs))
  }

  /** The addresses the driver may use: any but the value that marks the copy invalid,
      and an SCP message is as long as its header says. */
  predicate Proper(x: Action) {
    match x
    case DoScp(words) => words != [] && |words| == 1 + ScpSize(words[0])
    case DoWrite(a, _) => a != INVALID
    case DoWriteMultiple(a, _) => a != INVALID
    case DoRead(a) => a != INVALID
  }

  /** The driver's copy is either marked invalid or equal to the chip's register. */
  predicate CacheOk(s: State) {
    s.curr == INVALID || s.curr == s.chip.addr
  }

  /** If the driver takes a for the chip's current address, it is. */
  predicate HitIsTrue(s: State, a: u32) {
    s.curr == a ==> s.chip.addr == a
  }

  // ---- theorems -----------------------------------------------------------------

  /** The two address verbs together replace the whole register. */
  lemma HalvesMakeAddress(old32: u32, a: u32)
    ensures Join(Hi(a), Lo(Join(Hi(old32), Lo(a)))) == a
  {
    JoinSplits(a);
  }

  lemma AddressLands(s: State, a: u32, o: (nat, Verb) -> Fate)
    requires CacheOk(s)
    ensures var (r, ok) := WriteAddress(s, a, o);
            CacheOk(r) && r.chip.effects == s.chip.effects && r.chip.mem == s.chip.mem && r.chip.dspMsg == s.chip.dspMsg
            && (ok ==> r.curr == a)
            && (ok && HitIsTrue(s, a) ==> r.chip.addr == a)
            && (!ok ==> r.curr == INVALID)
  {
    HalvesMakeAddress(s.chip.addr, a);
    hide Hi, Lo, Join;
  }

  lemma DataLands(s: State, d: u32, o: (nat, Verb) -> Fate)
    requires CacheOk(s) && s.curr == s.chip.addr
    ensures var (r, ok) := WriteData(s, d, o);
            CacheOk(r) && r.chip.dspMsg == s.chip.dspMsg
            && (ok ==> r.curr == r.chip.addr == Add32(s.chip.addr, 4)
                       && r.chip.effects == s.chip.effects + [Write(s.chip.addr, d)] && r.chip.mem == s.chip.mem[s.chip.addr := d])
            && (!ok ==> r.curr == INVALID && r.chip.effects == s.chip.effects && r.chip.mem == s.chip.mem)
  {
    JoinSplits(d);
  }

  function StoreBlock(mem: map<u32, u32>, a: u32, data: seq<u32>): map<u32, u32>
    decreases |data|
  {
    if data == [] then mem else StoreBlock(mem[a := data[0]], Add32(a, 4), data[1..])
  }

  /** A block write stores its words at consecutive addresses; if it fails part-way, the
      words it did store are a prefix of the block, each at its own address. */
  lemma {:induction false} BlockLands(s: State, data: seq<u32>, o: (nat, Verb) -> Fate) returns (n: nat)
    requires CacheOk(s) && s.curr == s.chip.addr
    ensures n <= |data|
    ensures var (r, ok) := WriteDataMultiple(s, data, o);
            CacheOk(r) && r.chip.dspMsg == s.chip.dspMsg
            && r.chip.effects == s.chip.effects + Block(s.chip.addr, data[..n])
            && (ok ==> n == |data| && r.curr == r.chip.addr && r.chip.mem == StoreBlock(s.chip.mem, s.chip.addr, data))
            && (!ok ==> r.curr == INVALID)
    decreases |data|
  {
    if data == [] {
      n := 0;
    } else {
      var (r, ok) := WriteData(s, data[0], o);
      DataLands(s, data[0], o);
      if ok {
        var m := BlockLands(r, data[1..], o);
        n := m + 1;
        assert data[..n][1..] == data[1..][..m];
        assert Block(s.chip.addr, data[..n]) == [Write(s.chip.addr, data[0])] + Block(r.chip.addr, data[1..][..m]);
      } else {
        n := 0;
      }
    }
  }

  /** The cache invariant survives every action, accepted or refused anywhere. */
  lemma PerformKeepsCache(s: State, x: Action, o: (nat, Verb) -> Fate)
    requires CacheOk(s) && (x.DoScp? || HitIsTrue(s, x.a))
    ensures CacheOk(Perform(s, x, o).0)
  {
    match x
    case DoWrite(a, d) =>
      AddressLands(s, a, o);
      var (r, ok) := WriteAddress(s, a, o);
      if ok {
        DataLands(r, d, o);
      }
    case DoWriteMultiple(a, data) =>
      AddressLands(s, a, o);
      var (r, ok) := WriteAddress(s, a, o);
      if ok {
        var _ := BlockLands(r, data, o);
      }
    case DoRead(a) => AddressLands(s, a, o);
    case DoScp(words) => ScpKeepsCache(s, words, o);
  }

  lemma {:induction false} ScpKeepsCache(s: State, ws: seq<u32>, o: (nat, Verb) -> Fate)
    ensures var r := ScpWords(s, ws, o).0;
            r.curr == s.curr && r.chip.addr == s.chip.addr && r.chip.mem == s.chip.mem
    decreases |ws|
  {
    if ws != [] {
      var (r, ok) := ScpWord(s, ws[0], o);
      if ok {
        ScpKeepsCache(r, ws[1..], o);
      }
    }
  }

  /** From ca0132_init on, whatever is refused and whatever fails, the driver's copy of
      the address register is invalid or right. */
  lemma {:induction false} CacheAlwaysOk(s: State, xs: seq<Action>, o: (nat, Verb) -> Fate)
    requires s.curr == INVALID
    requires forall i :: 0 <= i < |xs| ==> xs[i].DoScp? || Proper(xs[i])
    ensures CacheOk(PerformAll(s, xs, o))
  {
    if xs != [] {
      CacheAlwaysOk(s, Front(xs), o);
      PerformKeepsCache(PerformAll(s, Front(xs), o), Last(xs), o);
    }
  }

  /** An action takes effect atomically at the requested address; one that fails leaves
      a prefix of the requested effects and nothing else. SCP sends are treated apart. */
  lemma PerformLands(s: State, x: Action, o: (nat, Verb) -> Fate) returns (n: nat)
    requires CacheOk(s) && !x.DoScp? && HitIsTrue(s, x.a)
    ensures n <= |Wanted(x)|
    ensures var (r, ok) := Perform(s, x, o);
            r.chip.effects == s.chip.effects + Wanted(x)[..n] && r.chip.dspMsg == s.chip.dspMsg
            && (ok ==> n == |Wanted(x)|)
  {
    AddressLands(s, x.a, o);
    var (r, ok) := WriteAddress(s, x.a, o);
    n := 0;
    if ok {
      match x
      case DoWrite(a, d) =>
        DataLands(r, d, o);
        n := if WriteData(r, d, o).1 then 1 else 0;
      case DoWriteMultiple(a, data) =>
        n := BlockLands(r, data, o);
        BlockPrefix(a, data, n);
      case DoRead(a) =>
        n := if ReadWord(r, o).1 then 1 else 0;
    }
  }

  lemma {:induction false} BlockPrefix(a: u32, data: seq<u32>, n: nat)
    requires n <= |data|
    ensures |Block(a, data)| == |data| && Block(a, data[..n]) == Block(a, data)[..n]
    decreases |data|
  {
    if n > 0 {
      BlockPrefix(Add32(a, 4), data[1..], n - 1);
      assert data[..n][1..] == data[1..][..n - 1];
    } else if data != [] {
      BlockPrefix(Add32(a, 4), data[1..], 0);
    }
  }

  /** A read returns what the last write to that address left there. */
  lemma ReadReturnsMemory(s: State, a: u32, o: (nat, Verb) -> Fate)
    requires CacheOk(s) && HitIsTrue(s, a)
    ensures var (r, ok) := WriteAddress(s, a, o);
            ok ==> var (r1, ok1, v) := ReadWord(r, o);
                   r1.chip.mem == s.chip.mem && (ok1 ==> v == Load(s.chip.mem, a))
  {
    AddressLands(s, a, o);
  }

  /** The one address the copy cannot represent. With the copy marked invalid, an access to
      0xFFFFFFFF counts as a hit, sends no address, and lands wherever the chip's register
      happens to point: an accepted write reaches its address, and leaves a right copy, if
      and only if its address is not the marker, or the copy is valid, or the register
      happens to hold the marker. */
  lemma WriteLandsIff(s: State, a: u32, d: u32, o: (nat, Verb) -> Fate)
    requires CacheOk(s) && Perform(s, DoWrite(a, d), o).1
    ensures var r := Perform(s, DoWrite(a, d), o).0;
            var lands := a != INVALID || s.curr != INVALID || s.chip.addr == INVALID;
            && (r.chip.effects == s.chip.effects + [Write(a, d)] <==> lands)
            && (CacheOk(r) <==> lands)
  {
    if HitIsTrue(s, a) {
      var n := PerformLands(s, DoWrite(a, d), o);
      PerformKeepsCache(s, DoWrite(a, d), o);
    } else {
      JoinSplits(d);
      var e := Perform(s, DoWrite(a, d), o).0.chip.effects;
      assert e == s.chip.effects + [Write(s.chip.addr, d)];
      assert e[|s.chip.effects|] == Write(s.chip.addr, d);
    }
  }

  // ---- success -------------------------------------------------------------------------------

  /** Every verb gets through in the end, however often it is refused before. */
  ghost predicate AllAccepted(o: (nat, Verb) -> Fate) {
    forall t, v :: o(t, v).accepted
  }

  lemma {:induction false} BlockSucceeds(s: State, data: seq<u32>, o: (nat, Verb) -> Fate)
    requires AllAccepted(o)
    ensures WriteDataMultiple(s, data, o).1
    decreases |data|
  {
    if data != [] {
      BlockSucceeds(WriteData(s, data[0], o).0, data[1..], o);
    }
  }

  lemma {:induction false} WordsSucceed(s: State, ws: seq<u32>, o: (nat, Verb) -> Fate)
    requires AllAccepted(o)
    ensures ScpWords(s, ws, o).1
    decreases |ws|
  {
    if ws != [] {
      assert ScpWord(s, ws[0], o).1;
      WordsSucceed(ScpWord(s, ws[0], o).0, ws[1..], o);
    }
  }

  /** An access fails only if one of its verbs is given up. */
  lemma PerformSucceeds(s: State, x: Action, o: (nat, Verb) -> Fate)
    requires AllAccepted(o)
    ensures Perform(s, x, o).1
  {
    match x
    case DoScp(words) => WordsSucceed(s, words, o);
    case DoWriteMultiple(a, data) => BlockSucceeds(WriteAddress(s, a, o).0, data, o);
    case _ =>
  }
}
