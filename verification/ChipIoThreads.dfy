/** Chip I/O from several threads, one verb at a time. Each access takes chipio_mutex around
    its verbs, and an SCP message takes it anew for every word; between any two verbs, and
    between the refusals of one, any other thread may act. The theorems say that nobody can
    tell: whenever the mutex is free, what has happened is a serial run of whole accesses. */
module ChipIoThreads {
  import opened ChipIo
  import opened Options
  import opened RoundTrip
  import opened TraceDecoder
  import opened Words

  // ---- one locked section, verb by verb -----------------------------------------------------

  /** What follows the address. */
  datatype Body = Data(words: seq<u32>) | OneRead

  /** Where a thread that holds the mutex stands. */
  datatype Pc =
    | AtAddress(a: u32, body: Body)            // about to compare with the copy
    | AtHigh(a: u32, body: Body)
    | AtBody(body: Body)
    | AtDataHigh(d: u32, rest: seq<u32>)
    | AtStatus
    | AtRead
    | AtScpLow(w: u32)
    | AtScpHigh(w: u32)
    | AtCheck
    | Done(ok: bool)

  /** A thread in the middle of a section: the verb it stands at has been refused `tries` times. */
  datatype Mid = Mid(s: State, pc: Pc, tries: nat)

  function NextVerb(s: State, pc: Pc): Option<Verb> {
    match pc
    case AtAddress(a, _) => if s.curr == a then None else Some(AddressLow(Lo(a)))
    case AtHigh(a, _) => Some(AddressHigh(Hi(a)))
    case AtBody(Data(ds)) => if ds == [] then None else Some(DataLow(Lo(ds[0])))
    case AtBody(OneRead) => Some(PostRead)
    case AtDataHigh(d, _) => Some(DataHigh(Hi(d)))
    case AtStatus => Some(ChipStatus)
    case AtScpLow(w) => Some(ScpLow(Lo(w)))
    case AtScpHigh(w) => Some(ScpHigh(Hi(w)))
    case _ => None
  }

  function Fail(s: State): (State, Pc) {
    (s.(curr := INVALID), Done(false))
  }

  /** After the last reply to the verb. */
  function After(s: State, pc: Pc, ok: bool): (State, Pc) {
    match pc
    case AtAddress(a, b) => if ok then (s, AtHigh(a, b)) else Fail(s)
    case AtHigh(a, b) => if ok then (s.(curr := a), AtBody(b)) else Fail(s)
    case AtBody(Data(ds)) => if ok && ds != [] then (s, AtDataHigh(ds[0], ds[1..])) else Fail(s)
    case AtBody(OneRead) => if ok then (s, AtStatus) else Fail(s)
    case AtDataHigh(d, rest) => if ok then (s.(curr := Add32(s.curr, 4)), AtBody(Data(rest))) else Fail(s)
    case AtStatus => if ok then (s, AtRead) else Fail(s)
    case AtScpLow(w) => (s, if ok then AtScpHigh(w) else Done(false))
    case AtScpHigh(w) => (s, if ok then AtCheck else Done(false))
    case _ => (s, pc)
  }

  /** Where no reply is waited for: a cache hit, the end of a block, the plain read, the
      closing status check. */
  function Local(s: State, pc: Pc, o: (nat, Verb) -> Fate): (State, Pc) {
    match pc
    case AtAddress(_, b) => (s, AtBody(b))
    case AtBody(_) => (s, Done(true))
    case AtRead => (s.(chip := Execute(s.chip, ReadData), wire := s.wire + [ReadData], curr := Add32(s.curr, 4)), Done(true))
    case AtCheck => (CheckQueue(s), Done(o(s.t, DspStatus).accepted))
    case _ => (s, pc)
  }

  /** One verb. */
  function Micro(m: Mid, o: (nat, Verb) -> Fate): Mid {
    match NextVerb(m.s, m.pc)
    case None => var (s, pc) := Local(m.s, m.pc, o); Mid(s, pc, 0)
    case Some(v) =>
      var f := o(m.s.t, v);
      var s1 := m.s.(wire := m.s.wire + [v]);
      if m.tries < f.busy then
        Mid(s1, m.pc, m.tries + 1)
      else
        var s2 := s1.(t := s1.t + 1, chip := if f.accepted then Execute(s1.chip, v) else s1.chip);
        var (s, pc) := After(s2, m.pc, f.accepted);
        Mid(s, pc, 0)
  }

  function BodySize(b: Body): nat {
    if b.OneRead? then 3 else 2 * |b.words| + 1
  }

  function Size(pc: Pc): nat {
    match pc
    case AtAddress(_, b) => 2 + BodySize(b)
    case AtHigh(_, b) => 1 + BodySize(b)
    case AtBody(b) => BodySize(b)
    case AtDataHigh(_, rest) => 2 * |rest| + 2
    case AtStatus => 2
    case AtRead => 1
    case AtScpLow(_) => 3
    case AtScpHigh(_) => 2
    case AtCheck => 1
    case Done(_) => 0
  }

  /** How many refusals are still to come. */
  function Refusals(m: Mid, o: (nat, Verb) -> Fate): nat {
    match NextVerb(m.s, m.pc)
    case None => 0
    case Some(v) => var b := o(m.s.t, v).busy; if m.tries < b then b - m.tries else 0
  }

  lemma MicroProgress(m: Mid, o: (nat, Verb) -> Fate)
    requires !m.pc.Done?
    ensures var m' := Micro(m, o);
            Size(m'.pc) < Size(m.pc) || (m'.pc == m.pc && Refusals(m', o) < Refusals(m, o))
  {
  }

  /** The rest of the section, undisturbed. */
  function Finish(m: Mid, o: (nat, Verb) -> Fate): (State, bool)
    decreases Size(m.pc), Refusals(m, o)
  {
    if m.pc.Done? then (m.s, m.pc.ok)
    else
      MicroProgress(m, o);
      Finish(Micro(m, o), o)
  }

  /** Sending a verb refusal by refusal is sending it. */
  lemma {:induction false} SendInSteps(s: State, pc: Pc, v: Verb, tries: nat, o: (nat, Verb) -> Fate)
    requires NextVerb(s, pc) == Some(v) && tries <= o(s.t, v).busy
    ensures var f := o(s.t, v);
            var s1 := s.(wire := s.wire + Repeat(v, f.busy - tries + 1), t := s.t + 1);
            var s2 := if f.accepted then s1.(chip := Execute(s1.chip, v)) else s1;
            var (r, pc') := After(s2, pc, f.accepted);
            Finish(Mid(s, pc, tries), o) == Finish(Mid(r, pc', 0), o)
    decreases o(s.t, v).busy - tries
  {
    hide Execute, After, Hi, Lo;
    var f := o(s.t, v);
    if tries < f.busy {
      var s1 := s.(wire := s.wire + [v]);
      SendInSteps(s1, pc, v, tries + 1, o);
      assert (s.wire + [v]) + Repeat(v, f.busy - tries) == s.wire + Repeat(v, f.busy - tries + 1);
    } else {
      assert Repeat(v, 1) == [v];
    }
  }

  lemma SendFinishes(s: State, pc: Pc, v: Verb, o: (nat, Verb) -> Fate)
    requires NextVerb(s, pc) == Some(v)
    ensures var (r, ok) := Send(s, v, o);
            var (r', pc') := After(r, pc, ok);
            Finish(Mid(s, pc, 0), o) == Finish(Mid(r', pc', 0), o)
  {
    hide Finish, Execute, After, NextVerb;
    SendInSteps(s, pc, v, 0, o);
  }

  lemma AddressFinishes(s: State, a: u32, b: Body, o: (nat, Verb) -> Fate)
    ensures var (r, ok) := WriteAddress(s, a, o);
            Finish(Mid(s, AtAddress(a, b), 0), o) == if ok then Finish(Mid(r, AtBody(b), 0), o) else (r, false)
  {
    hide Execute, Hi, Lo;
    if s.curr != a {
      SendFinishes(s, AtAddress(a, b), AddressLow(Lo(a)), o);
      var (s1, ok) := Send(s, AddressLow(Lo(a)), o);
      if ok {
        SendFinishes(s1, AtHigh(a, b), AddressHigh(Hi(a)), o);
      }
    }
  }

  lemma {:induction false} BlockFinishes(s: State, data: seq<u32>, o: (nat, Verb) -> Fate)
    ensures Finish(Mid(s, AtBody(Data(data)), 0), o) == WriteDataMultiple(s, data, o)
    decreases |data|
  {
    hide Execute, Hi, Lo;
    if data != [] {
      SendFinishes(s, AtBody(Data(data)), DataLow(Lo(data[0])), o);
      var (s1, ok) := Send(s, DataLow(Lo(data[0])), o);
      if ok {
        SendFinishes(s1, AtDataHigh(data[0], data[1..]), DataHigh(Hi(data[0])), o);
        var (s2, ok2) := Send(s1, DataHigh(Hi(data[0])), o);
        if ok2 {
          BlockFinishes(s2.(curr := Add32(s.curr, 4)), data[1..], o);
        }
      }
    }
  }

  lemma ReadFinishes(s: State, o: (nat, Verb) -> Fate)
    ensures var (r, ok, _) := ReadWord(s, o);
            Finish(Mid(s, AtBody(OneRead), 0), o) == (r, ok)
  {
    hide Execute;
    SendFinishes(s, AtBody(OneRead), PostRead, o);
    var (s1, ok) := Send(s, PostRead, o);
    if ok {
      SendFinishes(s1, AtStatus, ChipStatus, o);
    }
  }

  lemma ScpFinishes(s: State, w: u32, o: (nat, Verb) -> Fate)
    ensures Finish(Mid(s.(wire := s.wire + [DspStatus]), AtScpLow(w), 0), o) == ScpWord(s, w, o)
  {
    hide Execute, Hi, Lo;
    var s0 := s.(wire := s.wire + [DspStatus]);
    SendFinishes(s0, AtScpLow(w), ScpLow(Lo(w)), o);
    var (s1, ok) := Send(s0, ScpLow(Lo(w)), o);
    if ok {
      SendFinishes(s1, AtScpHigh(w), ScpHigh(Hi(w)), o);
    }
  }

  /** The sections that threads run: an access, or one word of an SCP message. */
  predicate IsJob(x: Action) {
    x.DoScp? ==> |x.words| == 1
  }

  function Start(x: Action): Pc
    requires IsJob(x)
  {
    match x
    case DoWrite(a, d) => AtAddress(a, Data([d]))
    case DoWriteMultiple(a, data) => AtAddress(a, Data(data))
    case DoRead(a) => AtAddress(a, OneRead)
    case DoScp(words) => AtScpLow(words[0])
  }

  /** Verb by verb, an access does what it does at once. */
  lemma AccessFinishes(s: State, x: Action, o: (nat, Verb) -> Fate)
    requires !x.DoScp?
    ensures Finish(Mid(s, Start(x), 0), o) == Perform(s, x, o)
  {
    hide Finish, WriteAddress;
    var (r, ok) := WriteAddress(s, x.a, o);
    match x
    case DoWrite(a, d) =>
      AddressFinishes(s, a, Data([d]), o);
      BlockFinishes(r, [d], o);
      OneWord(r, d, o);
    case DoWriteMultiple(a, data) =>
      AddressFinishes(s, a, Data(data), o);
      BlockFinishes(r, data, o);
    case DoRead(a) =>
      AddressFinishes(s, a, OneRead, o);
      ReadFinishes(r, o);
  }

  lemma OneWord(s: State, d: u32, o: (nat, Verb) -> Fate)
    ensures WriteDataMultiple(s, [d], o) == WriteData(s, d, o)
  {
    var (r, ok) := WriteData(s, d, o);
    assert [d][1..] == [];
  }

  // ---- status polls --------------------------------------------------------------------------

  /** The verbs without the status polls, which change nothing and which the threads send
      outside the mutex, too. */
  function Strip(w: seq<Verb>): seq<Verb> {
    if w == [] then [] else Strip(Front(w)) + (if Last(w).DspStatus? then [] else [Last(w)])
  }

  lemma StripSnoc(w: seq<Verb>, v: Verb)
    ensures Strip(w + [v]) == Strip(w) + (if v.DspStatus? then [] else [v])
  {
    assert Front(w + [v]) == w;
  }

  /** Equal up to status polls. */
  predicate Same(a: State, b: State) {
    a.curr == b.curr && a.chip == b.chip && a.t == b.t && Strip(a.wire) == Strip(b.wire)
  }

  lemma MicroSame(m: Mid, n: Mid, o: (nat, Verb) -> Fate)
    requires m.pc == n.pc && m.tries == n.tries && Same(m.s, n.s)
    ensures var m', n' := Micro(m, o), Micro(n, o);
            m'.pc == n'.pc && m'.tries == n'.tries && Same(m'.s, n'.s)
  {
    hide Execute, Strip, Hi, Lo;
    var v := NextVerb(m.s, m.pc);
    assert v == NextVerb(n.s, n.pc);
    if v.Some? {
      StripSnoc(m.s.wire, v.value);
      StripSnoc(n.s.wire, v.value);
    }
    StripSnoc(m.s.wire, ReadData);
    StripSnoc(n.s.wire, ReadData);
    StripSnoc(m.s.wire, DspStatus);
    StripSnoc(n.s.wire, DspStatus);
  }

  lemma {:induction false} FinishSame(m: Mid, n: Mid, o: (nat, Verb) -> Fate)
    requires m.pc == n.pc && m.tries == n.tries && Same(m.s, n.s)
    ensures Same(Finish(m, o).0, Finish(n, o).0) && Finish(m, o).1 == Finish(n, o).1
    decreases Size(m.pc), Refusals(m, o)
  {
    hide Micro, Same, Size, Refusals;
    if !m.pc.Done? {
      MicroProgress(m, o);
      MicroSame(m, n, o);
      FinishSame(Micro(m, o), Micro(n, o), o);
    }
  }

  lemma PollSame(a: State, b: State)
    requires Same(a, b)
    ensures Same(a.(wire := a.wire + [DspStatus]), b) && Same(a, b.(wire := b.wire + [DspStatus]))
  {
    StripSnoc(a.wire, DspStatus);
    StripSnoc(b.wire, DspStatus);
  }

  // ---- threads -----------------------------------------------------------------------------------

  /** A section that has ended, and whose it was. */
  datatype Ended = Ended(thread: nat, job: Action)

  /** Chip, link and copy; who holds the mutex, and where that thread stands; what every
      thread still has to do, the section in progress included; what has ended, in order. */
  datatype Sys = Sys(s: State, owner: Option<nat>, pc: Pc, tries: nat, todo: seq<seq<Action>>, ended: seq<Ended>)

  /** A thread's next step, or a status poll that it sends without the mutex. */
  datatype Choice = Act(thread: nat) | Poll(thread: nat)

  /** The section an action starts with: an SCP message is sent word by word. */
  function JobOf(x: Action): (j: Action)
    requires x != DoScp([])
    ensures IsJob(j) && (!x.DoScp? ==> j == x) && j.DoScp? == x.DoScp?
  {
    if x.DoScp? then DoScp([x.words[0]]) else x
  }

  /** What is left after the first section of the first action: dspio_write_multiple goes on
      to the next word, or gives the message up. */
  function Remaining(xs: seq<Action>, ok: bool): seq<Action>
    requires xs != []
  {
    if xs[0].DoScp? && ok && |xs[0].words| > 1 then [DoScp(xs[0].words[1..])] + xs[1..] else xs[1..]
  }

  function Next(y: Sys, c: Choice, o: (nat, Verb) -> Fate): Sys {
    match c
    case Poll(i) =>
      if i < |y.todo| && y.owner != Some(i) && y.todo[i] != [] && y.todo[i][0].DoScp? then
        y.(s := y.s.(wire := y.s.wire + [DspStatus]))
      else
        y
    case Act(i) =>
      if i >= |y.todo| || y.todo[i] == [] then
        y
      else if y.todo[i][0] == DoScp([]) then
        if y.owner == Some(i) then y else y.(todo := y.todo[i := y.todo[i][1..]])
      else if y.owner == Some(i) then
        var m := Micro(Mid(y.s, y.pc, y.tries), o);
        if m.pc.Done? then
          y.(s := m.s, owner := None, pc := m.pc, tries := 0, todo := y.todo[i := Remaining(y.todo[i], m.pc.ok)],
             ended := y.ended + [Ended(i, JobOf(y.todo[i][0]))])
        else
          y.(s := m.s, pc := m.pc, tries := m.tries)
      else if y.owner.None? then
        y.(owner := Some(i), pc := Start(JobOf(y.todo[i][0])), tries := 0)
      else
        y                                       // waits for the mutex
  }

  function Go(y: Sys, cs: seq<Choice>, o: (nat, Verb) -> Fate): Sys {
    if cs == [] then y else Next(Go(y, Front(cs), o), Last(cs), o)
  }

  function Jobs(es: seq<Ended>): seq<Action> {
    if es == [] then [] else Jobs(Front(es)) + [Last(es).job]
  }

  lemma JobsSnoc(es: seq<Ended>, e: Ended)
    ensures Jobs(es + [e]) == Jobs(es) + [e.job]
  {
    assert Front(es + [e]) == es;
  }

  /** The serial run of the sections that have ended. */
  function Base(s0: State, y: Sys, o: (nat, Verb) -> Fate): State {
    PerformAll(s0, Jobs(y.ended), o)
  }

  /** The section in progress, if it ran on undisturbed, would do what it does at once. */
  ghost predicate Serial(s0: State, y: Sys, o: (nat, Verb) -> Fate) {
    match y.owner
    case None => Same(y.s, Base(s0, y, o))
    case Some(i) =>
      && i < |y.todo| && y.todo[i] != [] && y.todo[i][0] != DoScp([]) && !y.pc.Done?
      && var (r, ok) := Finish(Mid(y.s, y.pc, y.tries), o);
         var (b, ok') := Perform(Base(s0, y, o), JobOf(y.todo[i][0]), o);
         Same(r, b) && ok == ok'
  }

  lemma StartKeepsSerial(s0: State, y: Sys, i: nat, o: (nat, Verb) -> Fate)
    requires Serial(s0, y, o) && y.owner.None? && i < |y.todo| && y.todo[i] != [] && y.todo[i][0] != DoScp([])
    ensures Serial(s0, Next(y, Act(i), o), o)
  {
    hide Finish, Same, Perform, ScpWord;
    var x, b := JobOf(y.todo[i][0]), Base(s0, y, o);
    if x.DoScp? {
      var b1 := b.(wire := b.wire + [DspStatus]);
      PollSame(y.s, b);
      FinishSame(Mid(y.s, AtScpLow(x.words[0]), 0), Mid(b1, AtScpLow(x.words[0]), 0), o);
      ScpFinishes(b, x.words[0], o);
      OneScpWord(b, x.words[0], o);
    } else {
      FinishSame(Mid(y.s, Start(x), 0), Mid(b, Start(x), 0), o);
      AccessFinishes(b, x, o);
    }
  }

  lemma OneScpWord(s: State, w: u32, o: (nat, Verb) -> Fate)
    ensures Perform(s, DoScp([w]), o) == ScpWord(s, w, o)
  {
    hide ScpWord;
    assert [w][1..] == [];
    var (r, ok) := ScpWord(s, w, o);
    assert ScpWords(r, [], o) == (r, true);
  }

  lemma OwnerKeepsSerial(s0: State, y: Sys, i: nat, o: (nat, Verb) -> Fate)
    requires Serial(s0, y, o) && y.owner == Some(i)
    ensures Serial(s0, Next(y, Act(i), o), o)
  {
    hide Micro, Same, Perform, Remaining;
    var m := Mid(y.s, y.pc, y.tries);
    assert Finish(m, o) == Finish(Micro(m, o), o);
    var e := Ended(i, JobOf(y.todo[i][0]));
    JobsSnoc(y.ended, e);
    assert Front(Jobs(y.ended) + [e.job]) == Jobs(y.ended);
  }

  lemma PollKeepsSerial(s0: State, y: Sys, i: nat, o: (nat, Verb) -> Fate)
    requires Serial(s0, y, o)
    ensures Serial(s0, Next(y, Poll(i), o), o)
  {
    hide Finish, Perform, Strip;
    var s' := y.s.(wire := y.s.wire + [DspStatus]);
    StripSnoc(y.s.wire, DspStatus);
    if y.owner.Some? {
      FinishSame(Mid(s', y.pc, y.tries), Mid(y.s, y.pc, y.tries), o);
    }
  }

  lemma {:induction false} RunIsSerial(y: Sys, cs: seq<Choice>, o: (nat, Verb) -> Fate)
    requires y.owner.None? && y.ended == []
    ensures Serial(y.s, Go(y, cs, o), o)
  {
    hide Serial, Next;
    if cs == [] {
      NothingIsSerial(y, o);
    } else {
      var m := Go(y, Front(cs), o);
      RunIsSerial(y, Front(cs), o);
      StepKeepsSerial(y.s, m, Last(cs), o);
    }
  }

  lemma NothingIsSerial(y: Sys, o: (nat, Verb) -> Fate)
    requires y.owner.None? && y.ended == []
    ensures Serial(y.s, y, o)
  {
  }

  lemma StepKeepsSerial(s0: State, y: Sys, c: Choice, o: (nat, Verb) -> Fate)
    requires Serial(s0, y, o)
    ensures Serial(s0, Next(y, c, o), o)
  {
    match c
    case Poll(i) => PollKeepsSerial(s0, y, i, o);
    case Act(i) =>
      if i < |y.todo| && y.todo[i] != [] && y.todo[i][0] != DoScp([]) {
        if y.owner == Some(i) {
          OwnerKeepsSerial(s0, y, i, o);
        } else if y.owner.None? {
          StartKeepsSerial(s0, y, i, o);
        }
      } else {
        hide Finish, Perform, Same, Base;
      }
  }

  // ---- nobody's accesses get lost or swapped -----------------------------------------------------

  /** The accesses among the actions, without the SCP messages. */
  function Accesses(xs: seq<Action>): seq<Action> {
    if xs == [] then [] else (if xs[0].DoScp? then [] else [xs[0]]) + Accesses(xs[1..])
  }

  /** The accesses that thread i has ended. */
  function EndedBy(es: seq<Ended>, i: nat): seq<Action> {
    if es == [] then []
    else EndedBy(Front(es), i) + (if Last(es).thread == i && !Last(es).job.DoScp? then [Last(es).job] else [])
  }

  lemma RemainingAccesses(xs: seq<Action>, ok: bool)
    requires xs != []
    ensures (if xs[0].DoScp? then [] else [xs[0]]) + Accesses(Remaining(xs, ok)) == Accesses(xs)
  {
    if xs[0].DoScp? && ok && |xs[0].words| > 1 {
      var ys := [DoScp(xs[0].words[1..])] + xs[1..];
      assert ys[1..] == xs[1..];
    }
  }

  /** The end of thread j's current section, seen by thread i. */
  lemma EndConserves(es: seq<Ended>, todo: seq<seq<Action>>, j: nat, ok: bool, i: nat)
    requires i < |todo| && j < |todo| && todo[j] != [] && todo[j][0] != DoScp([])
    ensures var todo' := todo[j := Remaining(todo[j], ok)];
            EndedBy(es + [Ended(j, JobOf(todo[j][0]))], i) + Accesses(todo'[i]) == EndedBy(es, i) + Accesses(todo[i])
  {
    hide Remaining, Accesses;
    var e := Ended(j, JobOf(todo[j][0]));
    assert Front(es + [e]) == es;
    RemainingAccesses(todo[j], ok);
    if i == j {
      var head := if todo[j][0].DoScp? then [] else [todo[j][0]];
      assert EndedBy(es + [e], i) == EndedBy(es, i) + head;
      var rest := Accesses(Remaining(todo[j], ok));
      assert (EndedBy(es, i) + head) + rest == EndedBy(es, i) + (head + rest);
    } else {
      assert EndedBy(es + [e], i) == EndedBy(es, i) + [];
    }
  }

  lemma StepConserves(y: Sys, c: Choice, o: (nat, Verb) -> Fate, i: nat)
    requires i < |y.todo|
    ensures var r := Next(y, c, o);
            |r.todo| == |y.todo| && EndedBy(r.ended, i) + Accesses(r.todo[i]) == EndedBy(y.ended, i) + Accesses(y.todo[i])
  {
    hide Micro, Start, EndedBy, Remaining, JobOf;
    if c.Act? && c.thread < |y.todo| && y.todo[c.thread] != [] {
      var j := c.thread;
      if y.todo[j][0] == DoScp([]) {
        EmptyMessage(y.todo[j]);
      } else if y.owner == Some(j) {
        EndConserves(y.ended, y.todo, j, true, i);
        EndConserves(y.ended, y.todo, j, false, i);
      }
    }
  }

  lemma EmptyMessage(xs: seq<Action>)
    requires xs != [] && xs[0] == DoScp([])
    ensures Accesses(xs[1..]) == Accesses(xs)
  {
  }

  /** Every thread's accesses end in the order in which it makes them, each once. */
  lemma {:induction false} AccessesAreConserved(y: Sys, cs: seq<Choice>, o: (nat, Verb) -> Fate, i: nat)
    requires i < |y.todo|
    ensures var r := Go(y, cs, o);
            |r.todo| == |y.todo| && EndedBy(r.ended, i) + Accesses(r.todo[i]) == EndedBy(y.ended, i) + Accesses(y.todo[i])
  {
    if cs != [] {
      hide Next;
      AccessesAreConserved(y, Front(cs), o, i);
      StepConserves(Go(y, Front(cs), o), Last(cs), o, i);
    }
  }

  /** The threads use addresses that the copy can hold. */
  predicate ProperThreads(todo: seq<seq<Action>>) {
    forall i, k :: 0 <= i < |todo| && 0 <= k < |todo[i]| ==> todo[i][k].DoScp? || Proper(todo[i][k])
  }

  predicate ProperJobs(xs: seq<Action>) {
    forall k :: 0 <= k < |xs| ==> xs[k].DoScp? || Proper(xs[k])
  }

  lemma {:induction false} JobsAreProper(y: Sys, cs: seq<Choice>, o: (nat, Verb) -> Fate)
    requires ProperThreads(y.todo) && ProperJobs(Jobs(y.ended))
    ensures var r := Go(y, cs, o); ProperThreads(r.todo) && ProperJobs(Jobs(r.ended))
  {
    if cs != [] {
      hide Next, ProperThreads, ProperJobs;
      JobsAreProper(y, Front(cs), o);
      StepIsProper(Go(y, Front(cs), o), Last(cs), o);
    }
  }

  lemma StepIsProper(y: Sys, c: Choice, o: (nat, Verb) -> Fate)
    requires ProperThreads(y.todo) && ProperJobs(Jobs(y.ended))
    ensures var r := Next(y, c, o); ProperThreads(r.todo) && ProperJobs(Jobs(r.ended))
  {
    hide Micro, Start, Jobs, Proper;
    if c.Act? && c.thread < |y.todo| && y.todo[c.thread] != [] && y.todo[c.thread][0] != DoScp([]) {
      JobsSnoc(y.ended, Ended(c.thread, JobOf(y.todo[c.thread][0])));
    }
  }

  // ---- the theorems -------------------------------------------------------------------------------

  /** From ca0132_init on, in every interleaving of any number of threads, with refusals and
      errors anywhere: whenever the mutex is free, chip, copy and link are exactly as after
      the serial run of the sections that have ended, and the copy is invalid or right. */
  lemma InterleavingsAreSerial(y: Sys, cs: seq<Choice>, o: (nat, Verb) -> Fate)
    requires y.owner.None? && y.ended == [] && y.s.curr == INVALID && ProperThreads(y.todo)
    ensures var r := Go(y, cs, o);
            r.owner.None? ==> Same(r.s, PerformAll(y.s, Jobs(r.ended), o)) && CacheOk(r.s)
  {
    hide Same;
    RunIsSerial(y, cs, o);
    JobsAreProper(y, cs, o);
    var r := Go(y, cs, o);
    CacheAlwaysOk(y.s, Jobs(r.ended), o);
    SameCache(r.s, PerformAll(y.s, Jobs(r.ended), o));
  }

  lemma SameCache(a: State, b: State)
    requires CacheOk(b)
    ensures Same(a, b) ==> CacheOk(a)
  {
  }

  /** In such a serial run each access takes effect at once: it adds its own reads or writes,
      in order and at the requested addresses, all of them if it succeeds and else a prefix. */
  lemma EachAccessIsAtomic(s: State, xs: seq<Action>, k: nat, o: (nat, Verb) -> Fate) returns (n: nat)
    requires s.curr == INVALID && ProperJobs(xs) && k < |xs| && !xs[k].DoScp?
    ensures n <= |Wanted(xs[k])|
    ensures var before, after := PerformAll(s, xs[..k], o), PerformAll(s, xs[..k + 1], o);
            && after.chip.effects == before.chip.effects + Wanted(xs[k])[..n]
            && (Perform(before, xs[k], o).1 ==> n == |Wanted(xs[k])|)
  {
    var before := PerformAll(s, xs[..k], o);
    assert Front(xs[..k + 1]) == xs[..k];
    CacheAlwaysOk(s, xs[..k], o);
    n := PerformLands(before, xs[k], o);
  }

  /** The decoder does not see status polls. */
  lemma {:induction false} PollsAreInvisible(d: Ops, w: seq<Verb>)
    ensures Decode(d, w) == Decode(d, Strip(w))
  {
    hide Step, Encode;
    if w != [] {
      PollsAreInvisible(d, Front(w));
      if Last(w).DspStatus? {
        StepOnPolls(Decode(d, Front(w)));
        assert Strip(w) == Strip(Front(w));
      } else {
        assert Front(Strip(w)) == Strip(Front(w)) && Last(Strip(w)) == Last(w);
      }
    }
  }

  /** So the report decoded from an interleaved capture is as truthful as a serial one. */
  lemma InterleavedReportIsTruthful(d0: Ops, y: Sys, cs: seq<Choice>, o: (nat, Verb) -> Fate)
    requires y.owner.None? && y.ended == [] && y.s.curr == INVALID && ProperThreads(y.todo)
    requires y.s.wire == [] && y.s.chip.effects == [] && y.s.chip.dspMsg == d0.scp == []
    requires HighsAtOnce(o) && Go(y, cs, o).owner.None?
    requires forall x :: x in Jobs(Go(y, cs, o).ended) ==> NoWrap(x)
    ensures Report(d0, Go(y, cs, o).s).lines == d0.lines + Lines(Go(y, cs, o).s.chip.effects)
  {
    hide Decode, Lines, Strip;
    var r := Go(y, cs, o);
    InterleavingsAreSerial(y, cs, o);
    JobsAreProper(y, cs, o);
    var b := PerformAll(y.s, Jobs(r.ended), o);
    ReportIsTruthful(d0, y.s, Jobs(r.ended), o);
    PollsAreInvisible(d0, r.s.wire);
    PollsAreInvisible(d0, b.wire);
  }
}
