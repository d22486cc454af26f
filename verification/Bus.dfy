/** The bus object: ring memory, controller registers and driver fields, updated in
    place by the functions of controller.c and bus.c. Each atomic section (one
    holding of the register lock) is tied to its value-level counterpart in
    Transport; between two sections the environment takes any schedule of steps. */
module Bus {
  import opened Words
  import opened Rings
  import opened Transport
  import opened Delivery
  import Q = EventQueue

  class HdacBus {
    // memory shared with the controller
    const corbBuf: array<Cmd>
    const rirbBuf: array<Entry>
    // controller registers
    var corbRpReg: nat
    var corbWpReg: nat
    var rirbWpReg: nat
    // driver state
    var rirbRp: nat
    var rirbWp: nat
    const cmds: array<nat>
    const res: array<u32>
    const unsolBuf: array<Entry>
    var unsolRp: nat
    var unsolWp: nat
    // the codecs' side of the link: commands being worked on
    var inflight: seq<seq<Cmd>>
    // history
    ghost var accepted: seq<Cmd>
    ghost var fetched: seq<Cmd>
    ghost var done: seq<seq<Outcome>>
    ghost var posted: seq<Entry>
    ghost var drained: seq<Entry>

    ghost function Arrays(): set<object> {
      {corbBuf, rirbBuf, cmds, res, unsolBuf}
    }

    ghost function W(): World
      reads this, Arrays()
    {
      World(corbBuf[..], corbRpReg, corbWpReg, rirbBuf[..], rirbRp, rirbWpReg, cmds[..], res[..],
            accepted, fetched, inflight, done, posted, drained)
    }

    ghost function Queue(): Q.Queue
      reads this, Arrays()
    {
      Q.Queue(unsolBuf[..], unsolRp, unsolWp)
    }

    ghost predicate Separate() {
      && corbBuf as object != rirbBuf && corbBuf as object != cmds && corbBuf as object != res
      && corbBuf as object != unsolBuf && rirbBuf as object != cmds && rirbBuf as object != res
      && rirbBuf != unsolBuf && cmds as object != res && cmds as object != unsolBuf && res as object != unsolBuf
    }

    /** Between two interrupts the driver's copy of the write pointer is its read pointer. */
    ghost predicate Valid()
      reads this, Arrays()
    {
      Separate() && Inv(W()) && Q.Valid(Queue()) && rirbWp == rirbRp
    }

    /** Right after snd_hdac_bus_init_cmd_io on freshly allocated pages. */
    constructor ()
      ensures Valid() && Initial(W()) && Q.Unread(Queue()) == []
      ensures fresh(Arrays())
    {
      corbBuf := new Cmd[CORB_ENTRIES](_ => 0);
      rirbBuf := new Entry[RIRB_ENTRIES](_ => Entry(0, 0));
      cmds := new nat[MAX_CODECS](_ => 0);
      res := new u32[MAX_CODECS](_ => 0);
      unsolBuf := new Entry[Q.UNSOL_QUEUE_SIZE](_ => Entry(0, 0));
      corbRpReg, corbWpReg, rirbWpReg := 0, 0, 0;
      rirbRp, rirbWp, unsolRp, unsolWp := 0, 0, 0, 0;
      accepted, fetched, posted, drained := [], [], [], [];
      inflight, done := seq(MAX_CODECS, _ => []), seq(MAX_CODECS, _ => []);
      new;
      InitialInv(W());
    }

    /** snd_hdac_bus_init_cmd_io on a bus in use, after a link reset: both rings are empty
        and all counters zero again; the last answers and the queued events stay. */
    method InitCmdIo()
      requires Valid()
      modifies this, cmds
      ensures Valid() && Initial(W())
      ensures Queue() == old(Queue()) && res[..] == old(res[..])
    {
      ghost var w := W();
      assert Shape(w);
      hide Inv, Initial;
      ClearCounters();
      ResetRings();
      ResetIsInitial(w, cmds[..]);
    }

    method ClearCounters()
      requires Separate()
      modifies cmds
      ensures forall k :: 0 <= k < cmds.Length ==> cmds[k] == 0
      ensures W() == old(W()).(cmds := cmds[..]) && Queue() == old(Queue())
    {
      for a := 0 to cmds.Length
        invariant forall k :: 0 <= k < a ==> cmds[k] == 0
        invariant W() == old(W()).(cmds := cmds[..]) && Queue() == old(Queue())
      {
        cmds[a] := 0;
      }
    }

    /** Both pointers of both rings, and what is in flight on the link. */
    method ResetRings()
      modifies this
      ensures W() == Emptied(old(W())) && Queue() == old(Queue()) && rirbWp == rirbRp
    {
      corbWpReg, corbRpReg := 0, 0;
      rirbWp, rirbRp, rirbWpReg := 0, 0, 0;
      accepted, fetched, posted, drained := [], [], [], [];
      inflight, done := NoCommands(), NoOutcomes();
    }

    /** snd_hdac_bus_send_cmd_corb. */
    method SendCmdCorb(val: Cmd, dead: bool) returns (err: Err)
      requires Valid()
      modifies this, corbBuf, cmds
      ensures Valid()
      ensures (W(), err) == Send(old(W()), val, dead)
      ensures Queue() == old(Queue())
    {
      SendKeepsInv(W(), val, dead);
      var addr := CmdAddr(val);
      if dead {
        return EIO;
      }
      var wp := (corbWpReg + 1) % CORB_ENTRIES;
      if wp == corbRpReg {
        return EAGAIN;
      }
      cmds[addr] := cmds[addr] + 1;
      corbBuf[wp] := val;
      corbWpReg := wp;
      accepted := accepted + [val];
      return OK;
    }

    /** snd_hdac_bus_queue_event. */
    method QueueEvent(e: Entry)
      requires Separate() && Shape(W()) && Q.Valid(Queue())
      modifies this`unsolWp, unsolBuf
      ensures W() == old(W())
      ensures Queue() == Q.Put(old(Queue()), e)
    {
      unsolWp := (unsolWp + 1) % Q.UNSOL_QUEUE_SIZE;
      unsolBuf[unsolWp] := e;
    }

    /** One RIRB entry, as the loop of snd_hdac_bus_update_rirb handles it. The branch for
        a spurious answer is dead: an answer always finds a positive counter. */
    method DrainEntry()
      requires Separate() && Inv(W()) && Q.Valid(Queue()) && rirbRp != rirbWpReg
      modifies this`rirbRp, this`drained, this`unsolWp, cmds, res, unsolBuf
      ensures W() == DrainOne(old(W()))
      ensures Queue() == Q.PutIfEvent(old(Queue()), old(W()).rirb[Next(RIRB_ENTRIES, old(W()).rirbRp)])
    {
      ghost var w0 := W();
      rirbRp := (rirbRp + 1) % RIRB_ENTRIES;
      var e := rirbBuf[rirbRp];
      var addr := e.ex % 16;
      drained := drained + [e];
      if addr >= MAX_CODECS {
        // reported as a spurious response: no such codec
      } else if IsUnsol(e) {
        QueueEvent(e);
      } else if cmds[addr] > 0 {
        res[addr] := e.res;
        cmds[addr] := cmds[addr] - 1;
      } else {
        AnswerIsExpected(w0, addr);
        assert false;
      }
    }

    /** snd_hdac_bus_update_rirb: empties the RIRB in order; answers update the counters
        and results, events go to the queue, in the order they were posted. */
    method UpdateRirb(dead: bool)
      requires Valid()
      modifies this, cmds, res, unsolBuf
      ensures Valid()
      ensures W() == if dead then old(W()) else Drain(old(W()))
      ensures Queue() == if dead then old(Queue()) else
                Q.Absorb(old(Queue()), Pending(old(W()).rirb, old(W()).rirbRp, old(W()).hwWp))
    {
      hide CodecInv, Drain, DrainOne, Pending, Q.Absorb, Q.PutIfEvent;
      if dead {
        return;
      }
      var wp := rirbWpReg;
      if wp == rirbWp {
        Drained(W(), Queue());
        return;
      }
      rirbWp := wp;
      ghost var w0 := W();
      ghost var q0, es0 := Queue(), Pending(w0.rirb, rirbRp, wp);
      while rirbRp != wp
        invariant Separate() && Inv(W()) && Q.Valid(Queue())
        invariant wp == rirbWpReg == rirbWp && W().rirb == w0.rirb
        invariant Drain(W()) == Drain(w0)
        invariant Q.Absorb(Queue(), Pending(W().rirb, rirbRp, wp)) == Q.Absorb(q0, es0)
        decreases Count(RIRB_ENTRIES, rirbRp, wp)
      {
        DrainOneKeepsInv(W());
        DrainStep(W());
        PopTakesOldest(rirbBuf[..], rirbRp, wp);
        Q.AbsorbCons(Queue(), rirbBuf[Next(RIRB_ENTRIES, rirbRp)], Pending(rirbBuf[..], Next(RIRB_ENTRIES, rirbRp), wp));
        DrainEntry();
      }
      Drained(W(), Queue());
    }

    /** The controller puts an entry on the RIRB. */
    method PostEntry(e: Entry)
      requires Separate() && Shape(W())
      modifies this`rirbWpReg, this`posted, rirbBuf
      ensures W() == Post(old(W()), e) && Queue() == old(Queue())
    {
      rirbWpReg := (rirbWpReg + 1) % RIRB_ENTRIES;
      rirbBuf[rirbWpReg] := e;
      posted := posted + [e];
    }

    /** A codec is through with its oldest command. */
    method FinishCommand(a: nat, ghost o: Outcome)
      requires Separate() && Shape(W()) && a < MAX_CODECS && inflight[a] != []
      modifies this`inflight, this`done
      ensures W() == Finish(old(W()), a, o) && Queue() == old(Queue())
    {
      inflight := inflight[a := inflight[a][1..]];
      done := done[a := done[a] + [o]];
    }

    /** A step of the controller or of a codec. */
    method ControllerStep(s: HwStep)
      requires Valid()
      modifies this, rirbBuf
      ensures Valid()
      ensures W() == Hw(old(W()), s)
      ensures Queue() == old(Queue())
    {
      hide CodecInv, Pending, Count;
      HwKeepsInv(W(), s);
      var canPost := (rirbWpReg + 1) % RIRB_ENTRIES != rirbRp;
      match s {
        case Fetch =>
          if corbRpReg != corbWpReg {
            corbRpReg := (corbRpReg + 1) % CORB_ENTRIES;
            var c := corbBuf[corbRpReg];
            fetched := fetched + [c];
            inflight := inflight[CmdAddr(c) := inflight[CmdAddr(c)] + [c]];
          }
        case Answer(a, val, ex) =>
          if a < MAX_CODECS && inflight[a] != [] && Solicited(Entry(val, ex), a) && canPost {
            FinishCommand(a, Answered(inflight[a][0], val));
            PostEntry(Entry(val, ex));
          }
        case Lose(a) =>
          if a < MAX_CODECS && inflight[a] != [] {
            FinishCommand(a, Lost(inflight[a][0]));
          }
        case Other(e) =>
          if (e.ex % 16 >= MAX_CODECS || IsUnsol(e)) && canPost {
            PostEntry(e);
          }
      }
    }

    /** One step of anybody. */
    method TakeStep(x: Step)
      requires Valid()
      modifies this, Arrays()
      ensures Valid()
      ensures (W(), Queue()) == ApplyQ(old(W()), old(Queue()), x)
    {
      match x
      case Controller(hw) => ControllerStep(hw);
      case Interrupt => UpdateRirb(false);
      case Command(c, dead) => var _ := SendCmdCorb(c, dead);
    }

    /** Whatever happens while the lock is free: any schedule of steps. */
    method Interfere(steps: seq<Step>)
      requires Valid()
      modifies this, Arrays()
      ensures Valid()
      ensures (W(), Queue()) == RunQ(old(W()), old(Queue()), steps)
    {
      hide ApplyQ, CodecInv;
      assert steps[..|steps|] == steps;
      for i := 0 to |steps|
        invariant Valid()
        invariant (W(), Queue()) == RunQ(old(W()), old(Queue()), steps[..i])
      {
        assert Front(steps[..i + 1]) == steps[..i];
        TakeStep(steps[i]);
      }
    }

    /** One look at the counter under the register lock. */
    method PollResponse(addr: nat, polling: bool, asleep: bool)
      returns (ready: bool, val: u32, ghost trace: seq<Step>)
      requires Valid() && addr < MAX_CODECS
      modifies this, Arrays()
      ensures Valid() && ReachedQ(old(W()), old(Queue()), trace, W(), Queue(), addr)
      ensures trace == Look(polling && !asleep)
      ensures polling && !asleep ==> OnRing(W()) == []
      ensures ready <==> W().cmds[addr] == 0
      ensures ready ==> val == W().res[addr]
    {
      trace := [];
      if polling {
        UpdateRirb(asleep);
        if !asleep {
          trace := [Interrupt];
          assert Front(trace) == [];
          DrainKeepsHistory(old(W()));
        }
      }
      ready, val := cmds[addr] == 0, res[addr];
    }

    /** snd_hdac_bus_get_response_rirb. `waits[k]` is what happens during the k-th sleep
        and the deadline passes after the last; `asleep` is a controller that reads all
        ones. The ghost result is everything that happened. It looks before, between and
        after the sleeps, ends at the first look that finds the answers in, and gives up
        only when there is none. */
    method GetResponseRirb(addr: nat, polling: bool, asleep: bool, waits: seq<seq<Step>>)
      returns (err: Err, val: u32, ghost trace: seq<Step>)
      requires Valid() && addr < MAX_CODECS
      requires forall k :: 0 <= k < |waits| ==> NoSendTo(waits[k], addr)
      modifies this, Arrays()
      ensures Valid() && ReachedQ(old(W()), old(Queue()), trace, W(), Queue(), addr)
      ensures err == OK || err == EIO
      ensures Waited(old(W()), old(Queue()), addr, waits, polling && !asleep, trace, err == OK)
      ensures err == OK <==> AnsweredWithin(old(W()), old(Queue()), addr, waits, polling && !asleep)
      ensures polling && !asleep ==> OnRing(W()) == []
      ensures err == OK ==> W().cmds[addr] == 0 && val == W().res[addr]
      ensures err == EIO ==> W().cmds[addr] > 0
    {
      hide RunQ, Run, CodecInv, NoSendTo, Waited, AnsweredWithin;
      trace := [];
      NothingReached(W(), Queue(), addr);
      ghost var w0, q0, poll := W(), Queue(), polling && !asleep;
      var loopcounter := 0;
      while true
        invariant loopcounter <= |waits|
        invariant Valid() && ReachedQ(w0, q0, trace, W(), Queue(), addr)
        invariant trace + Look(poll) == Looks(waits, loopcounter, poll)
        invariant forall k :: 0 <= k < loopcounter ==> !AnsweredBy(w0, q0, Looks(waits, k, poll), addr)
        decreases |waits| - loopcounter
      {
        ghost var more, w1, q1 := [], W(), Queue();
        var ready;
        ready, val, more := PollResponse(addr, polling, asleep);
        ReachedQTrans(w0, q0, trace, w1, q1, more, W(), Queue(), addr);
        trace := trace + more;
        if ready || loopcounter == |waits| {
          WaitEnds(w0, q0, addr, waits, poll, trace, ready, loopcounter);
          return if ready then OK else EIO, val, trace;
        }
        w1, q1 := W(), Queue();
        Interfere(waits[loopcounter]);
        ReachedQTrans(w0, q0, trace, w1, q1, waits[loopcounter], W(), Queue(), addr);
        trace := trace + waits[loopcounter];
        loopcounter := loopcounter + 1;
      }
    }

    /** The sending loop of snd_hdac_bus_exec_verb: while the CORB is full, pending answers
        are waited for. With a free slot the verb is sent at once. */
    method IssueVerb(addr: nat, cmd: Cmd, polling: bool, asleep: bool, retries: seq<seq<seq<Step>>>)
      returns (err: Err, ghost trace: seq<Step>)
      requires Valid() && addr == CmdAddr(cmd)
      requires forall r, k :: 0 <= r < |retries| && 0 <= k < |retries[r]| ==> NoSendTo(retries[r][k], addr)
      modifies this, Arrays()
      ensures Valid() && (W(), Queue()) == RunQ(old(W()), old(Queue()), trace)
      ensures err != EINVAL && err != EAGAIN
      ensures Issued(old(W()), old(Queue()), cmd, polling, asleep, retries, trace, err)
      ensures !asleep && !Full(old(W())) ==> err == OK && trace == [Command(cmd, false)]
      ensures To(W().accepted, addr) == To(old(W()).accepted, addr) + (if err == OK then [cmd] else [])
    {
      hide RunQ, ApplyQ, Run, CodecInv, NoSendTo, Waited, Issued, Spun, Round;
      trace := [];
      NothingReached(W(), Queue(), addr);
      ghost var w0, q0, rounds := W(), Queue(), [];
      NothingSpun(w0, q0, addr, polling, retries);
      var k := 0;
      while true
        invariant k == |rounds| <= |retries|
        invariant Valid() && ReachedQ(w0, q0, trace, W(), Queue(), addr)
        invariant Spun(w0, q0, addr, polling, retries, rounds) && trace == Flat(rounds)
        invariant asleep ==> k == 0
        decreases |retries| - k
      {
        RunKeepsHistory(w0, trace, addr);
        ghost var before, q := W(), Queue();
        err := SendCmdCorb(cmd, asleep);
        if err != EAGAIN {
          ToSnoc(before.accepted, cmd, addr);
          SendExtends(w0, q0, trace, before, q, cmd, asleep);
          trace := trace + [Command(cmd, asleep)];
          SendingEnds(w0, q0, cmd, polling, asleep, retries, rounds, trace, err);
          return;
        }
        if k == |retries| {
          err := BUSY_RETRYING;
          SendingEnds(w0, q0, cmd, polling, asleep, retries, rounds, trace, err);
          return;
        }
        var tmp: u32;
        ghost var more;
        err, tmp, more := GetResponseRirb(addr, polling, asleep, retries[k]);
        ReachedQTrans(w0, q0, trace, before, q, more, W(), Queue(), addr);
        OneMoreRound(w0, q0, addr, polling, retries, rounds, more, err == OK);
        trace, rounds := trace + more, rounds + [more];
        if err != OK {
          RunKeepsHistory(w0, trace, addr);
          SendingEnds(w0, q0, cmd, polling, asleep, retries, rounds, trace, err);
          return;
        }
        k := k + 1;
      }
    }

    /** snd_hdac_bus_exec_verb (the command mutex keeps every other verb to this codec
        out). `retries[k]` is the wait after the k-th full CORB, `waits` the wait for the
        answer; running out of `retries` leaves the verb still spinning.

        At most one copy of the verb is ever sent. Success with a result means: the codec
        has answered every command it was ever sent, the last of them is this verb, and
        the result is its answer. With a free slot on the CORB of a live controller the verb
        fails only if the answer does not come within `waits`. */
    method ExecVerb(addr: nat, cmd: u32, wantRes: bool, syncWrite: bool, polling: bool, asleep: bool,
                    retries: seq<seq<seq<Step>>>, waits: seq<seq<Step>>)
      returns (err: Err, val: u32, ghost trace: seq<Step>)
      requires Valid() && addr < MAX_CODECS
      requires cmd != 0xFFFF_FFFF ==> cmd / 0x1000_0000 == addr
      requires forall r, k :: 0 <= r < |retries| && 0 <= k < |retries[r]| ==> NoSendTo(retries[r][k], addr)
      requires forall k :: 0 <= k < |waits| ==> NoSendTo(waits[k], addr)
      modifies this, Arrays()
      ensures Valid()
      ensures (W(), Queue()) == RunQ(old(W()), old(Queue()), trace)
      ensures (err == EINVAL) == (cmd == 0xFFFF_FFFF)
      ensures err == EINVAL ==> trace == []
      ensures cmd != 0xFFFF_FFFF ==>
                Executed(old(W()), old(Queue()), cmd, wantRes || syncWrite, polling, asleep, retries, waits, trace, err)
      ensures cmd != 0xFFFF_FFFF && asleep ==> err == EIO && (W(), Queue()) == (old(W()), old(Queue()))
      ensures cmd != 0xFFFF_FFFF && !asleep && !Full(old(W())) ==>
                && (err == OK || err == EIO)
                && (!wantRes && !syncWrite ==> err == OK)
                && (wantRes || syncWrite ==>
                      (err == OK <==> AnsweredWithin(Send(old(W()), cmd, false).0, old(Queue()), addr, waits, polling)))
      ensures To(W().accepted, addr) == To(old(W()).accepted, addr)
           || To(W().accepted, addr) == To(old(W()).accepted, addr) + [cmd]
      ensures err == OK ==> To(W().accepted, addr) == To(old(W()).accepted, addr) + [cmd]
      ensures err != OK || !wantRes ==> val == 0xFFFF_FFFF
      ensures err == OK && wantRes ==>
                var mine := |To(old(W()).accepted, addr)|;
                && |W().done[addr]| == mine + 1 && W().done[addr][mine] == Answered(cmd, val)
                && forall i :: 0 <= i < mine ==> W().done[addr][i].Answered?
    {
      hide RunQ, ApplyQ, Run, CodecInv, NoSendTo, Issued, Waited, Executed, Send, AnsweredWithin;
      val, trace := 0xFFFF_FFFF, [];
      NothingReached(W(), Queue(), addr);
      if cmd == 0xFFFF_FFFF {
        return EINVAL, val, trace;
      }
      ghost var w0, q0 := W(), Queue();
      err, trace := IssueVerb(addr, cmd, polling, asleep, retries);
      ghost var issue, sent, more := err, trace, [];
      IssuedAsleep(w0, q0, cmd, polling, asleep, retries, sent, err);
      if err == OK && (wantRes || syncWrite) {
        ghost var w1 := W();
        var last: u32;
        err, last, more := GetResponseRirb(addr, polling, asleep, waits);
        RunKeepsHistory(w1, more, addr);
        RunQConcat(w0, q0, trace, more);
        trace := trace + more;
        if err == OK {
          ZeroMeansOwnAnswer(W(), addr);
          if wantRes {
            val := last;
          }
        }
      } else {
        assert trace + [] == trace;
      }
      ExecutionEnds(w0, q0, cmd, wantRes || syncWrite, polling, asleep, retries, waits, sent, issue, more, trace, err);
    }

    /** One turn of the work item: take the oldest event, call its codec's handler if there
        is one. */
    method ServeOne(registered: set<nat>) returns (e: Entry, call: seq<Q.Delivery>)
      requires Valid() && unsolRp != unsolWp
      modifies this`unsolRp
      ensures Valid() && W() == old(W())
      ensures (Queue(), e) == Q.Take(old(Queue()))
      ensures call == (if e.ex / 16 % 2 == 1 && e.ex % 16 in registered then [Q.Delivery(e.ex % 16, e.res)] else [])
    {
      unsolRp := (unsolRp + 1) % Q.UNSOL_QUEUE_SIZE;
      e := unsolBuf[unsolRp];
      if !IsUnsol(e) || e.ex % 16 !in registered {
        return e, [];
      }
      call := [Q.Delivery(e.ex % 16, e.res)];
    }

    /** snd_hdac_bus_process_unsol_events. The lock is free while a handler runs, and
        `during[k]` is what senders, controller, codecs and interrupts do during the k-th
        handler call. It ends with the queue empty, having moved along the joint system of
        transport, queue and work item, so that every event is delivered in order and once
        as long as no interrupt overflows the queue (see DeliveredInOrderIff). */
    method ProcessUnsolEvents(registered: set<nat>, during: seq<seq<Step>>)
      returns (calls: seq<Q.Delivery>, ghost taken: seq<Entry>, ghost moves: seq<Move>, ghost n: nat)
      requires Valid()
      modifies this, Arrays()
      ensures Valid() && Q.Unread(Queue()) == []
      ensures Sys(W(), Queue(), taken, calls) == Go(Sys(old(W()), old(Queue()), [], []), moves, registered)
      ensures n <= |during| && BusSteps(moves) == Flat(during[..n])
      ensures Q.CallsFor(calls, taken, registered)
      ensures forall i :: 0 <= i < |calls| ==> calls[i].codec in registered
      ensures (forall i :: 0 <= i < |taken| ==> IsEvent(taken[i]) && taken[i].ex % 16 in registered) ==>
                |calls| == |taken|
                && forall i :: 0 <= i < |taken| ==> calls[i].codec == taken[i].ex % 16 && calls[i].res == taken[i].res
      ensures var s := Sys(old(W()), old(Queue()), [], []);
              forall before :: Balanced(s, before) ==>
                (before + taken + Events(OnRing(W())) == Events(W().posted) <==> AllFit(s, moves, registered))
    {
      hide Go, MoveOn, RunQ, ApplyQ, CodecInv, Q.Take, Q.Dispatch, BusSteps, Flat, AllFit, Q.CallsFor, IsEvent;
      calls, taken, moves, n := [], [], [], 0;
      var k := 0;
      ghost var s0 := Sys(W(), Queue(), [], []);
      NoMoves(s0, registered);
      while unsolRp != unsolWp
        invariant Valid() && n == k <= |during|
        invariant Sys(W(), Queue(), taken, calls) == Go(s0, moves, registered)
        invariant BusSteps(moves) == Flat(during[..k])
        decreases |during| - k, |Q.Unread(Queue())|
      {
        ghost var q := Queue();
        GoSnoc(s0, moves, Serve, registered);
        NextServe(Sys(W(), q, taken, calls), registered);
        var e, call := ServeOne(registered);
        assert |[e] + Q.Unread(Queue())| == 1 + |Q.Unread(Queue())|;
        taken, calls, moves := taken + [e], calls + call, moves + [Serve];
        if call != [] && k < |during| {
          GoOnBus(s0, moves, during[k], registered);
          FlatSnoc(during[..k], during[k]);
          assert during[..k + 1] == during[..k] + [during[k]];
          Interfere(during[k]);
          moves := moves + OnBusAll(during[k]);
          k, n := k + 1, n + 1;
        }
      }
      Q.NoCalls(registered);
      CallsFollowEvents(s0, moves, registered);
      Q.CallsAreEvents(calls, taken, registered);
      WhatWasDelivered(s0, Sys(W(), Queue(), taken, calls), moves, registered);
    }
  }

  lemma DrainStep(w: World)
    requires Shape(w) && w.rirbRp != w.hwWp
    ensures Drain(w) == Drain(DrainOne(w))
    ensures DrainOne(w).rirb == w.rirb && DrainOne(w).hwWp == w.hwWp && DrainOne(w).rirbRp == Rings.Next(RIRB_ENTRIES, w.rirbRp)
  {
  }

  lemma Drained(w: World, q: Q.Queue)
    requires Shape(w) && Q.Valid(q) && w.rirbRp == w.hwWp
    ensures Drain(w) == w && Q.Absorb(q, Pending(w.rirb, w.rirbRp, w.hwWp)) == q
  {
    assert Pending(w.rirb, w.rirbRp, w.hwWp) == [];
  }

  function NoCommands(): seq<seq<Cmd>> {
    [[], [], [], [], [], [], [], []]
  }

  function NoOutcomes(): seq<seq<Outcome>> {
    [[], [], [], [], [], [], [], []]
  }

  /** The world with rings and histories emptied. */
  function Emptied(w: World): World {
    World(w.corb, 0, 0, w.rirb, 0, 0, w.cmds, w.res, [], [], NoCommands(), NoOutcomes(), [], [])
  }

  lemma ResetIsInitial(w: World, cmds: seq<nat>)
    requires Shape(w) && |cmds| == MAX_CODECS && forall a :: 0 <= a < MAX_CODECS ==> cmds[a] == 0
    ensures var r := Emptied(w.(cmds := cmds)); Initial(r) && Inv(r)
  {
    InitialInv(Emptied(w.(cmds := cmds)));
  }

  lemma NothingReached(w: World, q: Q.Queue, a: nat)
    requires Shape(w) && Q.Valid(q)
    ensures ReachedQ(w, q, [], w, q, a)
  {
  }

  lemma SendExtends(w0: World, q0: Q.Queue, trace: seq<Step>, w: World, q: Q.Queue, c: Cmd, dead: bool)
    requires Shape(w0) && Q.Valid(q0) && (w, q) == RunQ(w0, q0, trace)
    ensures RunQ(w0, q0, trace + [Command(c, dead)]) == (Send(w, c, dead).0, q)
  {
    hide RunQ, Run, Send, ApplyQ;
    RunQSnoc(w0, q0, trace, Command(c, dead));
    ApplyCommand(w, q, c, dead);
  }

  /** The loop of GetResponseRirb has come to an end. */
  lemma WaitEnds(w: World, q: Q.Queue, a: nat, waits: seq<seq<Step>>, poll: bool, steps: seq<Step>, ready: bool, n: nat)
    requires Shape(w) && Q.Valid(q) && a < MAX_CODECS && n <= |waits| && steps == Looks(waits, n, poll)
    requires forall k :: 0 <= k < n ==> !AnsweredBy(w, q, Looks(waits, k, poll), a)
    requires ready <==> RunQ(w, q, steps).0.cmds[a] == 0
    requires ready || n == |waits|
    ensures Waited(w, q, a, waits, poll, steps, ready)
    ensures ready <==> AnsweredWithin(w, q, a, waits, poll)
  {
    assert StoppedAt(w, q, a, waits, poll, steps, ready, n);
    WaitSucceedsIff(w, q, a, waits, poll, steps, ready);
  }

  lemma NothingSpun(w: World, q: Q.Queue, a: nat, poll: bool, retries: seq<seq<seq<Step>>>)
    requires Shape(w) && Q.Valid(q) && a < MAX_CODECS
    ensures Spun(w, q, a, poll, retries, []) && Flat([]) == []
  {
  }

  /** A full CORB and a wait make one more round. */
  lemma OneMoreRound(w: World, q: Q.Queue, a: nat, poll: bool, retries: seq<seq<seq<Step>>>, rounds: seq<seq<Step>>, more: seq<Step>, ok: bool)
    requires Shape(w) && Q.Valid(q) && a < MAX_CODECS && |rounds| < |retries| && Spun(w, q, a, poll, retries, rounds)
    requires var (w1, q1) := RunQ(w, q, Flat(rounds)); Full(w1) && Waited(w1, q1, a, retries[|rounds|], poll, more, ok)
    ensures var rs := rounds + [more];
            && Flat(rs) == Flat(rounds) + more && Front(rs) == rounds
            && Round(w, q, a, poll, retries, rs, |rounds|, ok) && (ok ==> Spun(w, q, a, poll, retries, rs))
  {
    hide RunQ, Flat, Waited;
    var rs := rounds + [more];
    FlatSnoc(rounds, more);
    assert rs[..|rounds|] == rounds;
    forall j | 0 <= j < |rounds|
      ensures Round(w, q, a, poll, retries, rs, j, true)
    {
      assert rs[..j] == rounds[..j];
      assert Round(w, q, a, poll, retries, rounds, j, true);
    }
  }

  lemma SendingEnds(w: World, q: Q.Queue, c: Cmd, polling: bool, asleep: bool, retries: seq<seq<seq<Step>>>,
                    rounds: seq<seq<Step>>, trace: seq<Step>, err: Err)
    requires Shape(w) && Q.Valid(q)
    requires if asleep then err == EIO && trace == [Command(c, true)]
             else IssuedAfter(w, q, c, polling, retries, rounds, trace, err)
    ensures Issued(w, q, c, polling, asleep, retries, trace, err)
    ensures !asleep && !Full(w) ==> err == OK && trace == [Command(c, false)]
  {
    if !asleep && !Full(w) {
      IssuedAtOnce(w, q, c, polling, asleep, retries, trace, err);
    }
  }

  lemma IssuedAsleep(w: World, q: Q.Queue, c: Cmd, polling: bool, asleep: bool, retries: seq<seq<seq<Step>>>, trace: seq<Step>, err: Err)
    requires Shape(w) && Q.Valid(q) && Issued(w, q, c, polling, asleep, retries, trace, err)
    ensures asleep ==> err == EIO && RunQ(w, q, trace) == (w, q)
    ensures err == OK ==> !asleep
  {
    if asleep {
      RunQSnoc(w, q, [], Command(c, true));
      assert [] + [Command(c, true)] == trace;
    }
  }

  lemma ExecutionEnds(w: World, q: Q.Queue, c: Cmd, wait: bool, polling: bool, asleep: bool,
                      retries: seq<seq<seq<Step>>>, waits: seq<seq<Step>>,
                      sent: seq<Step>, issue: Err, more: seq<Step>, trace: seq<Step>, err: Err)
    requires Shape(w) && Q.Valid(q) && ExecutedAs(w, q, c, wait, polling, asleep, retries, waits, sent, issue, more, trace, err)
    ensures Executed(w, q, c, wait, polling, asleep, retries, waits, trace, err)
    ensures !asleep && !Full(w) ==>
              && (err == OK || err == EIO)
              && (wait || err == OK)
              && (wait ==> (err == OK <==> AnsweredWithin(Send(w, c, false).0, q, CmdAddr(c), waits, polling)))
  {
    hide ExecutedAs, Send, AnsweredWithin;
    if !asleep && !Full(w) {
      ExecutedSucceedsIff(w, q, c, wait, polling, asleep, retries, waits, trace, err);
    }
  }

  lemma NoMoves(s: Sys, registered: set<nat>)
    requires Shape(s.w) && Q.Valid(s.q)
    ensures Go(s, [], registered) == s && BusSteps([]) == Flat([]) == []
  {
  }

  lemma NextServe(s: Sys, registered: set<nat>)
    requires Shape(s.w) && Q.Valid(s.q) && s.q.rp != s.q.wp
    ensures var (q, e) := Q.Take(s.q);
            MoveOn(s, Serve, registered) == Sys(s.w, q, s.taken + [e],
              s.calls + (if e.ex / 16 % 2 == 1 && e.ex % 16 in registered then [Q.Delivery(e.ex % 16, e.res)] else []))
  {
  }

  /** With the queue empty at the end, what was taken is what had to be. */
  lemma WhatWasDelivered(s: Sys, r: Sys, moves: seq<Move>, registered: set<nat>)
    requires Ok(s) && r == Go(s, moves, registered) && r.q.rp == r.q.wp
    ensures forall before :: Balanced(s, before) ==>
              (before + r.taken + Events(OnRing(r.w)) == Events(r.w.posted) <==> AllFit(s, moves, registered))
  {
    assert Q.Unread(r.q) == [];
    forall before | Balanced(s, before)
      ensures before + r.taken + Events(OnRing(r.w)) == Events(r.w.posted) <==> AllFit(s, moves, registered)
    {
      DeliveredInOrderIff(s, moves, registered, before);
      hide Go, AllFit, OnRing;
      assert before + r.taken + [] + Events(OnRing(r.w)) == before + r.taken + Events(OnRing(r.w));
    }
  }
}
