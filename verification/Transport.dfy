/** The CORB/RIRB command transport as a transition system: the driver appends
    commands to the CORB and drains the RIRB, while the controller fetches
    commands and posts answers and unsolicited events on its own schedule
    (sections 4.4.1 and 4.4.2 of the High Definition Audio Specification). */
module Transport {
  import opened Words
  import opened Rings

  const CORB_ENTRIES: nat := 256
  const RIRB_ENTRIES: nat := 256
  const MAX_CODECS: nat := 8

  /** Encoded verbs carry the codec address in their top four bits; the driver
      insists (snd_BUG_ON) that it is below MAX_CODECS. */
  type Cmd = c: u32 | c / 0x1000_0000 < MAX_CODECS witness 0

  function CmdAddr(c: Cmd): (a: nat)
    ensures a < MAX_CODECS
  {
    c / 0x1000_0000
  }

  /** One RIRB entry: the response word and the word that describes it. */
  datatype Entry = Entry(res: u32, ex: u32)

  function EntryAddr(e: Entry): nat {
    e.ex % 16
  }

  predicate IsUnsol(e: Entry) {
    e.ex / 16 % 2 == 1
  }

  /** A solicited answer from codec a. */
  predicate Solicited(e: Entry, a: nat) {
    EntryAddr(e) == a && !IsUnsol(e)
  }

  /** What the driver passes on to the unsolicited-event queue. */
  predicate IsEvent(e: Entry) {
    EntryAddr(e) < MAX_CODECS && IsUnsol(e)
  }

  /** What became of a command that a codec has finished with. */
  datatype Outcome = Answered(cmd: Cmd, val: u32) | Lost(cmd: Cmd)

  /** The shared rings and registers, the driver's bookkeeping, and the history of
      everything that happened (fields from `accepted` on). */
  datatype World = World(
    corb: seq<Cmd>, corbRp: nat, corbWp: nat,
    rirb: seq<Entry>, rirbRp: nat, hwWp: nat,
    cmds: seq<nat>, res: seq<u32>,
    accepted: seq<Cmd>,              // commands the driver has put on the CORB
    fetched: seq<Cmd>,               // commands the controller has read from the CORB
    inflight: seq<seq<Cmd>>,         // per codec: fetched, not yet finished
    done: seq<seq<Outcome>>,         // per codec: finished, oldest first
    posted: seq<Entry>,              // entries the controller has put on the RIRB
    drained: seq<Entry>)             // entries the driver has read from the RIRB

  // ---- projections of the histories ------------------------------------

  /** The commands addressed to codec a. */
  function To(s: seq<Cmd>, a: nat): seq<Cmd> {
    if s == [] then [] else To(Front(s), a) + (if CmdAddr(Last(s)) == a then [Last(s)] else [])
  }

  /** The response words of the solicited entries of codec a. */
  function Answers(s: seq<Entry>, a: nat): seq<u32> {
    if s == [] then [] else Answers(Front(s), a) + (if Solicited(Last(s), a) then [Last(s).res] else [])
  }

  function Events(s: seq<Entry>): seq<Entry> {
    if s == [] then [] else Events(Front(s)) + (if IsEvent(Last(s)) then [Last(s)] else [])
  }

  /** The values that the answered outcomes carry. */
  function Values(s: seq<Outcome>): seq<u32> {
    if s == [] then [] else Values(Front(s)) + (if Last(s).Answered? then [Last(s).val] else [])
  }

  function Commands(s: seq<Outcome>): (r: seq<Cmd>)
    ensures |r| == |s|
    ensures forall i :: 0 <= i < |s| ==> r[i] == s[i].cmd
  {
    if s == [] then [] else Commands(Front(s)) + [Last(s).cmd]
  }

  function LostCount(s: seq<Outcome>): nat {
    if s == [] then 0 else LostCount(Front(s)) + (if Last(s).Lost? then 1 else 0)
  }

  lemma ToSnoc(s: seq<Cmd>, c: Cmd, a: nat)
    ensures To(s + [c], a) == To(s, a) + (if CmdAddr(c) == a then [c] else [])
  {
    assert Front(s + [c]) == s;
  }

  lemma {:induction false} ToConcat(s: seq<Cmd>, t: seq<Cmd>, a: nat)
    ensures To(s + t, a) == To(s, a) + To(t, a)
  {
    if t == [] {
      assert s + t == s;
    } else {
      assert s + t == (s + Front(t)) + [Last(t)];
      ToConcat(s, Front(t), a);
      ToSnoc(s + Front(t), Last(t), a);
    }
  }

  lemma AnswersSnoc(s: seq<Entry>, e: Entry, a: nat)
    ensures Answers(s + [e], a) == Answers(s, a) + (if Solicited(e, a) then [e.res] else [])
  {
    assert Front(s + [e]) == s;
  }

  lemma {:induction false} AnswersConcat(s: seq<Entry>, t: seq<Entry>, a: nat)
    ensures Answers(s + t, a) == Answers(s, a) + Answers(t, a)
  {
    if t == [] {
      assert s + t == s;
    } else {
      assert s + t == (s + Front(t)) + [Last(t)];
      AnswersConcat(s, Front(t), a);
      AnswersSnoc(s + Front(t), Last(t), a);
    }
  }

  lemma OutcomeSnoc(s: seq<Outcome>, o: Outcome)
    ensures Values(s + [o]) == Values(s) + (if o.Answered? then [o.val] else [])
    ensures Commands(s + [o]) == Commands(s) + [o.cmd]
    ensures LostCount(s + [o]) == LostCount(s) + (if o.Lost? then 1 else 0)
  {
    assert Front(s + [o]) == s;
  }

  lemma {:induction false} OutcomesAddUp(s: seq<Outcome>)
    ensures |s| == |Values(s)| + LostCount(s)
    ensures LostCount(s) == 0 ==> forall i :: 0 <= i < |s| ==> s[i].Answered? && s[i].val == Values(s)[i]
    ensures (exists i :: 0 <= i < |s| && s[i].Lost?) ==> LostCount(s) > 0
  {
    if s != [] {
      OutcomesAddUp(Front(s));
    }
  }

  // ---- the invariant ------------------------------------------------------

  ghost predicate Shape(w: World) {
    && |w.corb| == CORB_ENTRIES && w.corbRp < CORB_ENTRIES && w.corbWp < CORB_ENTRIES
    && |w.rirb| == RIRB_ENTRIES && w.rirbRp < RIRB_ENTRIES && w.hwWp < RIRB_ENTRIES
    && |w.cmds| == |w.res| == |w.inflight| == |w.done| == MAX_CODECS
  }

  /** What the driver and the controller agree on about codec a. */
  ghost predicate CodecInv(w: World, a: nat)
    requires Shape(w) && a < MAX_CODECS
  {
    && Commands(w.done[a]) + w.inflight[a] == To(w.fetched, a)
    && Values(w.done[a]) == Answers(w.posted, a)
    && w.cmds[a] + |Answers(w.drained, a)| == |To(w.accepted, a)|
    && (Answers(w.drained, a) != [] ==> w.res[a] == Last(Answers(w.drained, a)))
  }

  /** Nothing is lost or reordered on either ring, and every codec's counter is right. */
  ghost predicate Inv(w: World) {
    && Shape(w)
    && w.fetched + Pending(w.corb, w.corbRp, w.corbWp) == w.accepted
    && w.drained + Pending(w.rirb, w.rirbRp, w.hwWp) == w.posted
    && forall a :: 0 <= a < MAX_CODECS ==> CodecInv(w, a)
  }

  // ---- the driver's atomic sections -----------------------------------------

  datatype Err = OK | EIO | EAGAIN | EINVAL | BUSY_RETRYING

  /** snd_hdac_bus_send_cmd_corb; `dead` stands for a write pointer that reads 0xffff. */
  function Send(w: World, c: Cmd, dead: bool): (r: (World, Err))
    requires Shape(w)
    ensures Shape(r.0)
  {
    if dead then
      (w, EIO)
    else if Next(CORB_ENTRIES, w.corbWp) == w.corbRp then
      (w, EAGAIN)
    else
      var wp, a := Next(CORB_ENTRIES, w.corbWp), CmdAddr(c);
      (w.(corb := w.corb[wp := c], corbWp := wp, cmds := w.cmds[a := w.cmds[a] + 1], accepted := w.accepted + [c]), OK)
  }

  /** One iteration of the loop in snd_hdac_bus_update_rirb. */
  function DrainOne(w: World): (r: World)
    requires Shape(w) && w.rirbRp != w.hwWp
    ensures Shape(r)
  {
    var rp := Next(RIRB_ENTRIES, w.rirbRp);
    var e := w.rirb[rp];
    var a := EntryAddr(e);
    var w1 := w.(rirbRp := rp, drained := w.drained + [e]);
    if a >= MAX_CODECS || IsUnsol(e) then
      w1                                     // error message, or handed to the event queue
    else if w.cmds[a] > 0 then
      w1.(res := w.res[a := e.res], cmds := w.cmds[a := w.cmds[a] - 1])
    else
      w1                                     // spurious response
  }

  function Drain(w: World): (r: World)
    requires Shape(w)
    ensures Shape(r)
    decreases Count(RIRB_ENTRIES, w.rirbRp, w.hwWp)
  {
    if w.rirbRp == w.hwWp then w else Drain(DrainOne(w))
  }

  // ---- the controller and the codecs ----------------------------------------

  datatype HwStep =
    | Fetch                                   // read the next command from the CORB
    | Answer(a: nat, val: u32, ex: u32)       // codec a answers its oldest command
    | Lose(a: nat)                            // codec a drops its oldest command
    | Other(e: Entry)                         // any entry that is nobody's answer

  /** The controller posts only when it does not run into entries the driver has not
      read, and labels an answer with the address of the codec that gave it. */
  predicate Enabled(w: World, s: HwStep)
    requires Shape(w)
  {
    match s
    case Fetch => w.corbRp != w.corbWp
    case Answer(a, v, ex) =>
      a < MAX_CODECS && w.inflight[a] != [] && Solicited(Entry(v, ex), a) && Next(RIRB_ENTRIES, w.hwWp) != w.rirbRp
    case Lose(a) => a < MAX_CODECS && w.inflight[a] != []
    case Other(e) =>
      (EntryAddr(e) >= MAX_CODECS || IsUnsol(e)) && Next(RIRB_ENTRIES, w.hwWp) != w.rirbRp
  }

  function Post(w: World, e: Entry): (r: World)
    requires Shape(w)
    ensures Shape(r)
  {
    var wp := Next(RIRB_ENTRIES, w.hwWp);
    w.(rirb := w.rirb[wp := e], hwWp := wp, posted := w.posted + [e])
  }

  function Finish(w: World, a: nat, o: Outcome): (r: World)
    requires Shape(w) && a < MAX_CODECS && w.inflight[a] != []
    ensures Shape(r)
  {
    w.(inflight := w.inflight[a := w.inflight[a][1..]], done := w.done[a := w.done[a] + [o]])
  }

  /** A disabled step changes nothing, so every schedule is a legal argument. */
  function Hw(w: World, s: HwStep): (r: World)
    requires Shape(w)
    ensures Shape(r)
  {
    if !Enabled(w, s) then w else
    match s
    case Fetch =>
      var rp := Next(CORB_ENTRIES, w.corbRp);
      var c := w.corb[rp];
      var a := CmdAddr(c);
      w.(corbRp := rp, fetched := w.fetched + [c], inflight := w.inflight[a := w.inflight[a] + [c]])
    case Answer(a, v, ex) => Post(Finish(w, a, Answered(w.inflight[a][0], v)), Entry(v, ex))
    case Lose(a) => Finish(w, a, Lost(w.inflight[a][0]))
    case Other(e) => Post(w, e)
  }

  /** Everything that can happen: controller steps, interrupts that drain the RIRB,
      and senders. */
  datatype Step = Controller(hw: HwStep) | Interrupt | Command(cmd: Cmd, dead: bool)

  function Apply(w: World, s: Step): (r: World)
    requires Shape(w)
    ensures Shape(r)
  {
    match s
    case Controller(hw) => Hw(w, hw)
    case Interrupt => Drain(w)
    case Command(c, dead) => Send(w, c, dead).0
  }

  function Run(w: World, steps: seq<Step>): (r: World)
    requires Shape(w)
    ensures Shape(r)
  {
    if steps == [] then w else Apply(Run(w, Front(steps)), Last(steps))
  }

  /** snd_hdac_bus_init_cmd_io: both rings empty, all counters zero; whatever
      the memory and the last answers held stays. */
  ghost predicate Initial(w: World) {
    && Shape(w)
    && w.corbRp == w.corbWp && w.rirbRp == w.hwWp
    && w.accepted == w.fetched == [] && w.posted == w.drained == []
    && forall a :: 0 <= a < MAX_CODECS ==> w.cmds[a] == 0 && w.inflight[a] == [] && w.done[a] == []
  }

  // ---- every step keeps the invariant -----------------------------------------

  lemma SendKeepsInv(w: World, c: Cmd, dead: bool)
    requires Inv(w)
    ensures Inv(Send(w, c, dead).0)
  {
    hide To, Answers, Values, Commands, Pending;
    var (r, err) := Send(w, c, dead);
    if err == OK {
      PushAppends(w.corb, w.corbRp, w.corbWp, c);
      forall a | 0 <= a < MAX_CODECS
        ensures CodecInv(r, a)
      {
        ToSnoc(w.accepted, c, a);
        assert CodecInv(w, a);
      }
    }
  }

  lemma DrainOneKeepsInv(w: World)
    requires Inv(w) && w.rirbRp != w.hwWp
    ensures Inv(DrainOne(w))
  {
    hide To, Answers, Values, Commands, Pending;
    var r := DrainOne(w);
    var e := w.rirb[Next(RIRB_ENTRIES, w.rirbRp)];
    PopTakesOldest(w.rirb, w.rirbRp, w.hwWp);
    forall a | 0 <= a < MAX_CODECS
      ensures CodecInv(r, a)
    {
      assert CodecInv(w, a);
      AnswersSnoc(w.drained, e, a);
      if Solicited(e, a) {
        AnswerIsExpected(w, a);
      }
    }
  }

  lemma DrainKeepsInv(w: World)
    requires Inv(w)
    ensures Inv(Drain(w))
    decreases Count(RIRB_ENTRIES, w.rirbRp, w.hwWp)
  {
    if w.rirbRp != w.hwWp {
      DrainOneKeepsInv(w);
      DrainKeepsInv(DrainOne(w));
    }
  }

  lemma FetchKeepsInv(w: World)
    requires Inv(w) && Enabled(w, Fetch)
    ensures Inv(Hw(w, Fetch))
  {
    hide To, Answers, Values, Commands, Pending;
    var r := Hw(w, Fetch);
    var c := w.corb[Next(CORB_ENTRIES, w.corbRp)];
    PopTakesOldest(w.corb, w.corbRp, w.corbWp);
    forall a | 0 <= a < MAX_CODECS
      ensures CodecInv(r, a)
    {
      assert CodecInv(w, a);
      ToSnoc(w.fetched, c, a);
    }
  }

  lemma AnswerKeepsInv(w: World, s: HwStep)
    requires Inv(w) && s.Answer? && Enabled(w, s)
    ensures Inv(Hw(w, s))
  {
    hide To, Answers, Values, Commands, Pending;
    var r, e, o := Hw(w, s), Entry(s.val, s.ex), Answered(w.inflight[s.a][0], s.val);
    PushAppends(w.rirb, w.rirbRp, w.hwWp, e);
    forall a | 0 <= a < MAX_CODECS
      ensures CodecInv(r, a)
    {
      assert CodecInv(w, a);
      AnswersSnoc(w.posted, e, a);
      OutcomeSnoc(w.done[a], o);
    }
  }

  lemma HwKeepsInv(w: World, s: HwStep)
    requires Inv(w)
    ensures Inv(Hw(w, s))
  {
    hide To, Answers, Values, Commands, Pending;
    if Enabled(w, s) {
      var r := Hw(w, s);
      match s
      case Fetch => FetchKeepsInv(w);
      case Answer(_, _, _) => AnswerKeepsInv(w, s);
      case Lose(a) =>
        forall b | 0 <= b < MAX_CODECS
          ensures CodecInv(r, b)
        {
          assert CodecInv(w, b);
          OutcomeSnoc(w.done[b], Lost(w.inflight[a][0]));
        }
      case Other(e) =>
        PushAppends(w.rirb, w.rirbRp, w.hwWp, e);
        forall b | 0 <= b < MAX_CODECS
          ensures CodecInv(r, b)
        {
          assert CodecInv(w, b);
          AnswersSnoc(w.posted, e, b);
        }
    }
  }

  lemma ApplyKeepsInv(w: World, s: Step)
    requires Inv(w)
    ensures Inv(Apply(w, s))
  {
    match s
    case Controller(hw) => HwKeepsInv(w, hw);
    case Interrupt => DrainKeepsInv(w);
    case Command(c, dead) => SendKeepsInv(w, c, dead);
  }

  /** The invariant holds in every reachable state, whatever the schedule. */
  lemma {:induction false} ReachableInv(w: World, steps: seq<Step>)
    requires Inv(w)
    ensures Inv(Run(w, steps))
  {
    if steps != [] {
      ReachableInv(w, Front(steps));
      ApplyKeepsInv(Run(w, Front(steps)), Last(steps));
    }
  }

  lemma InitialInv(w: World)
    requires Initial(w)
    ensures Inv(w)
  {
    forall a | 0 <= a < MAX_CODECS
      ensures CodecInv(w, a)
    {
    }
  }

  // ---- what the invariant is for ----------------------------------------------

  /** The outstanding-command counter of a codec counts exactly its commands that are
      queued, fetched but unanswered, answered but not yet drained, or lost. */
  lemma CounterCounts(w: World, a: nat)
    requires Inv(w) && a < MAX_CODECS
    ensures w.cmds[a]
         == |To(Pending(w.corb, w.corbRp, w.corbWp), a)| + |w.inflight[a]|
            + |Answers(Pending(w.rirb, w.rirbRp, w.hwWp), a)| + LostCount(w.done[a])
  {
    assert CodecInv(w, a);
    ToConcat(w.fetched, Pending(w.corb, w.corbRp, w.corbWp), a);
    AnswersConcat(w.drained, Pending(w.rirb, w.rirbRp, w.hwWp), a);
    OutcomesAddUp(w.done[a]);
  }

  /** The branch that reports a spurious response from a known codec is unreachable:
      the next RIRB entry, if it is an answer, always finds a positive counter. */
  lemma AnswerIsExpected(w: World, a: nat)
    requires Inv(w) && a < MAX_CODECS && w.rirbRp != w.hwWp
    requires Solicited(w.rirb[Next(RIRB_ENTRIES, w.rirbRp)], a)
    ensures w.cmds[a] > 0
  {
    CounterCounts(w, a);
    PopTakesOldest(w.rirb, w.rirbRp, w.hwWp);
    var e := w.rirb[Next(RIRB_ENTRIES, w.rirbRp)];
    AnswersConcat([e], Pending(w.rirb, Next(RIRB_ENTRIES, w.rirbRp), w.hwWp), a);
    AnswersSnoc([], e, a);
    assert [] + [e] == [e];
  }

  /** The CORB is a FIFO over any run: the controller has read a prefix of the
      accepted commands, and the rest is still in the ring, none overwritten. */
  lemma CorbIsFifo(w: World, steps: seq<Step>)
    requires Initial(w)
    ensures var r := Run(w, steps);
            r.fetched <= r.accepted && Pending(r.corb, r.corbRp, r.corbWp) == r.accepted[|r.fetched|..]
  {
    InitialInv(w);
    ReachableInv(w, steps);
  }

  /** The driver is turned away exactly when 255 commands wait: one slot stays empty. Turned
      away or faced with a dead controller it changes nothing; otherwise the command is the
      last one waiting. */
  lemma SendRefusedIffFull(w: World, c: Cmd)
    requires Inv(w)
    ensures Send(w, c, false).1 == EAGAIN <==> |w.accepted| - |w.fetched| == CORB_ENTRIES - 1
    ensures Send(w, c, false).1 == EAGAIN ==> Send(w, c, false).0 == w
    ensures Send(w, c, true) == (w, EIO)
    ensures Send(w, c, false).1 != EAGAIN ==>
              var (r, err) := Send(w, c, false);
              err == OK && Pending(r.corb, r.corbRp, r.corbWp) == Pending(w.corb, w.corbRp, w.corbWp) + [c]
  {
    if Send(w, c, false).1 != EAGAIN {
      PushAppends(w.corb, w.corbRp, w.corbWp, c);
    }
  }

  /** Unsolicited events leave the RIRB once each and in the order they were posted. */
  lemma {:induction false} EventsConcat(s: seq<Entry>, t: seq<Entry>)
    ensures Events(s + t) == Events(s) + Events(t)
  {
    if t == [] {
      assert s + t == s;
    } else {
      assert s + t == (s + Front(t)) + [Last(t)];
      EventsConcat(s, Front(t));
      assert Front(s + t) == s + Front(t);
    }
  }

  lemma DrainDeliversEvents(w: World)
    requires Inv(w)
    ensures Drain(w).posted == w.posted && Drain(w).drained == w.posted
    ensures Events(Drain(w).drained) == Events(w.drained) + Events(Pending(w.rirb, w.rirbRp, w.hwWp))
    decreases Count(RIRB_ENTRIES, w.rirbRp, w.hwWp)
  {
    EventsConcat(w.drained, Pending(w.rirb, w.rirbRp, w.hwWp));
    if w.rirbRp != w.hwWp {
      DrainOneKeepsInv(w);
      DrainDeliversEvents(DrainOne(w));
    }
  }

  /** When the counter of a codec is zero, the driver's last result is the codec's
      answer to the last command it was sent, and no answer ever went missing. */
  lemma ZeroMeansOwnAnswer(w: World, a: nat)
    requires Inv(w) && a < MAX_CODECS && w.cmds[a] == 0 && To(w.accepted, a) != []
    ensures |w.done[a]| == |To(w.accepted, a)|
    ensures forall i :: 0 <= i < |w.done[a]| ==> w.done[a][i].Answered? && w.done[a][i].cmd == To(w.accepted, a)[i]
    ensures w.res[a] == Last(w.done[a]).val
  {
    CounterCounts(w, a);
    assert CodecInv(w, a);
    OutcomesAddUp(w.done[a]);
    ToConcat(w.fetched, Pending(w.corb, w.corbRp, w.corbWp), a);
    AnswersConcat(w.drained, Pending(w.rirb, w.rirbRp, w.hwWp), a);
    assert To(w.accepted, a) == To(w.fetched, a) == Commands(w.done[a]);
    assert Answers(w.drained, a) == Values(w.done[a]);
  }

  /** Once a codec has dropped a command its counter never returns to zero, so no
      later verb to it can be credited with somebody else's answer. */
  lemma LostPinsCounter(w: World, a: nat)
    requires Inv(w) && a < MAX_CODECS && exists i :: 0 <= i < |w.done[a]| && w.done[a][i].Lost?
    ensures w.cmds[a] > 0
  {
    CounterCounts(w, a);
    OutcomesAddUp(w.done[a]);
  }

  /** No other sender writes to codec a while `steps` happen. */
  ghost predicate NoSendTo(steps: seq<Step>, a: nat) {
    forall i :: 0 <= i < |steps| && steps[i].Command? ==> CmdAddr(steps[i].cmd) != a
  }

  /** A run leaves the commands to a codec alone unless somebody sends to it, and only
      ever extends what the codec has finished. */
  lemma {:induction false} RunKeepsHistory(w: World, steps: seq<Step>, a: nat)
    requires Shape(w) && NoSendTo(steps, a) && a < MAX_CODECS
    ensures To(Run(w, steps).accepted, a) == To(w.accepted, a)
  {
    if steps != [] {
      var s, m := Last(steps), Run(w, Front(steps));
      assert NoSendTo(Front(steps), a);
      RunKeepsHistory(w, Front(steps), a);
      match s
      case Controller(_) =>
      case Interrupt => DrainKeepsHistory(m);
      case Command(c, _) => ToSnoc(m.accepted, c, a);
    }
  }

  lemma DrainKeepsHistory(w: World)
    requires Shape(w)
    ensures Drain(w).accepted == w.accepted && Drain(w).done == w.done && Drain(w).posted == w.posted
    ensures Drain(w).rirbRp == w.hwWp && Drain(w).hwWp == w.hwWp
    decreases Count(RIRB_ENTRIES, w.rirbRp, w.hwWp)
  {
    if w.rirbRp != w.hwWp {
      DrainKeepsHistory(DrainOne(w));
    }
  }

  /** A verb returns its own answer. Send `c` in any reachable state (late answers of
      earlier verbs may still be under way), let anything happen except another send
      to the same codec, and look at the result once the counter reads zero: it is the
      codec's answer to this very command, the one sent after all earlier ones. */
  lemma VerbGetsOwnAnswer(w: World, c: Cmd, steps: seq<Step>)
    requires Inv(w) && Send(w, c, false).1 == OK
    requires NoSendTo(steps, CmdAddr(c))
    requires Run(Send(w, c, false).0, steps).cmds[CmdAddr(c)] == 0
    ensures var a, r := CmdAddr(c), Run(Send(w, c, false).0, steps);
            var mine := |To(w.accepted, a)|;
            |r.done[a]| == mine + 1 && r.done[a][mine] == Answered(c, r.res[a])
  {
    var a, s := CmdAddr(c), Send(w, c, false).0;
    var r := Run(s, steps);
    SendKeepsInv(w, c, false);
    ReachableInv(s, steps);
    ToSnoc(w.accepted, c, a);
    RunKeepsHistory(s, steps, a);
    ZeroMeansOwnAnswer(r, a);
  }
}
