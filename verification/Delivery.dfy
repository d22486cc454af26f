/** From the controller's entries to the handlers: the command transport together with the
    unsolicited-event queue and the work item that empties it. An interrupt drains the RIRB
    into the queue, the work item takes one event at a time, and the two run interleaved
    with senders, controller and codecs. */
module Delivery {
  import opened Rings
  import opened Transport
  import opened Words
  import Q = EventQueue

  // ---- transport and queue ----------------------------------------------------------------

  /** The entries that wait on the RIRB. */
  function OnRing(w: World): seq<Entry>
    requires Shape(w)
  {
    Pending(w.rirb, w.rirbRp, w.hwWp)
  }

  /** A step of the transport, and what an interrupt puts on the queue. */
  function ApplyQ(w: World, q: Q.Queue, s: Step): (r: (World, Q.Queue))
    requires Shape(w) && Q.Valid(q)
    ensures Shape(r.0) && Q.Valid(r.1) && r.0 == Apply(w, s)
  {
    (Apply(w, s), if s.Interrupt? then Q.Absorb(q, OnRing(w)) else q)
  }

  function RunQ(w: World, q: Q.Queue, steps: seq<Step>): (r: (World, Q.Queue))
    requires Shape(w) && Q.Valid(q)
    ensures Shape(r.0) && Q.Valid(r.1) && r.0 == Run(w, steps)
  {
    if steps == [] then (w, q)
    else var (w1, q1) := RunQ(w, q, Front(steps)); ApplyQ(w1, q1, Last(steps))
  }

  lemma {:induction false} RunQConcat(w: World, q: Q.Queue, s: seq<Step>, t: seq<Step>)
    requires Shape(w) && Q.Valid(q)
    ensures var (w1, q1) := RunQ(w, q, s); RunQ(w, q, s + t) == RunQ(w1, q1, t)
  {
    hide Apply, Run;
    if t == [] {
      assert s + t == s;
    } else {
      RunQConcat(w, q, s, Front(t));
      assert Front(s + t) == s + Front(t);
    }
  }

  lemma RunQSnoc(w: World, q: Q.Queue, steps: seq<Step>, x: Step)
    requires Shape(w) && Q.Valid(q)
    ensures var (w1, q1) := RunQ(w, q, steps); RunQ(w, q, steps + [x]) == ApplyQ(w1, q1, x)
  {
    hide Apply, Run;
    assert Front(steps + [x]) == steps;
  }

  lemma ApplyCommand(w: World, q: Q.Queue, c: Cmd, dead: bool)
    requires Shape(w) && Q.Valid(q)
    ensures ApplyQ(w, q, Command(c, dead)) == (Send(w, c, dead).0, q)
  {
    hide Send, Drain, Hw;
  }

  /** (w, q) is where some schedule without a send to codec a leads from (w0, q0). */
  ghost predicate ReachedQ(w0: World, q0: Q.Queue, steps: seq<Step>, w: World, q: Q.Queue, a: nat)
    requires Shape(w0) && Q.Valid(q0)
  {
    NoSendTo(steps, a) && (w, q) == RunQ(w0, q0, steps)
  }

  lemma ReachedQTrans(w0: World, q0: Q.Queue, s: seq<Step>, w1: World, q1: Q.Queue, t: seq<Step>, w2: World, q2: Q.Queue, a: nat)
    requires Shape(w0) && Q.Valid(q0) && ReachedQ(w0, q0, s, w1, q1, a) && ReachedQ(w1, q1, t, w2, q2, a)
    ensures ReachedQ(w0, q0, s + t, w2, q2, a)
  {
    hide RunQ;
    RunQConcat(w0, q0, s, t);
  }

  // ---- waiting for an answer, sending when there is room --------------------------------------

  /** In polling mode a look at the counter first does the interrupt's work. */
  function Look(poll: bool): seq<Step> {
    if poll then [Interrupt] else []
  }

  /** k sleeps, with a look before, between and after them. */
  function Looks(waits: seq<seq<Step>>, k: nat, poll: bool): seq<Step>
    requires k <= |waits|
  {
    if k == 0 then Look(poll) else Looks(waits, k - 1, poll) + waits[k - 1] + Look(poll)
  }

  /** Without polling nothing but what happens during the sleeps happens. */
  lemma {:induction false} SleepsOnly(waits: seq<seq<Step>>, k: nat)
    requires k <= |waits|
    ensures Looks(waits, k, false) == Flat(waits[..k])
  {
    if k > 0 {
      SleepsOnly(waits, k - 1);
      FlatSnoc(waits[..k - 1], waits[k - 1]);
      assert waits[..k] == waits[..k - 1] + [waits[k - 1]];
    }
  }

  /** After `steps` codec a owes no answer. */
  ghost predicate AnsweredBy(w: World, q: Q.Queue, steps: seq<Step>, a: nat)
    requires Shape(w) && Q.Valid(q) && a < MAX_CODECS
  {
    RunQ(w, q, steps).0.cmds[a] == 0
  }

  /** Some look within the given sleeps finds the answers in. */
  ghost predicate AnsweredWithin(w: World, q: Q.Queue, a: nat, waits: seq<seq<Step>>, poll: bool)
    requires Shape(w) && Q.Valid(q) && a < MAX_CODECS
  {
    exists k :: 0 <= k <= |waits| && AnsweredBy(w, q, Looks(waits, k, poll), a)
  }

  /** `steps` is a wait that ends at the first look that finds the answers in, or that used
      up all its sleeps without one. */
  ghost predicate Waited(w: World, q: Q.Queue, a: nat, waits: seq<seq<Step>>, poll: bool, steps: seq<Step>, ok: bool)
    requires Shape(w) && Q.Valid(q) && a < MAX_CODECS
  {
    exists n :: StoppedAt(w, q, a, waits, poll, steps, ok, n)
  }

  ghost predicate StoppedAt(w: World, q: Q.Queue, a: nat, waits: seq<seq<Step>>, poll: bool, steps: seq<Step>, ok: bool, n: int)
    requires Shape(w) && Q.Valid(q) && a < MAX_CODECS
  {
    && 0 <= n <= |waits| && steps == Looks(waits, n, poll)
    && (forall k :: 0 <= k < n ==> !AnsweredBy(w, q, Looks(waits, k, poll), a))
    && (if ok then AnsweredBy(w, q, steps, a) else n == |waits| && !AnsweredBy(w, q, steps, a))
  }

  /** A wait succeeds exactly when an answer comes in time. */
  lemma WaitSucceedsIff(w: World, q: Q.Queue, a: nat, waits: seq<seq<Step>>, poll: bool, steps: seq<Step>, ok: bool)
    requires Shape(w) && Q.Valid(q) && a < MAX_CODECS && Waited(w, q, a, waits, poll, steps, ok)
    ensures ok <==> AnsweredWithin(w, q, a, waits, poll)
  {
    hide AnsweredBy, Looks;
    var n :| StoppedAt(w, q, a, waits, poll, steps, ok, n);
    if AnsweredWithin(w, q, a, waits, poll) {
      var k :| 0 <= k <= |waits| && AnsweredBy(w, q, Looks(waits, k, poll), a);
    }
  }

  /** The CORB has no free slot. */
  predicate Full(w: World)
    requires Shape(w)
  {
    Next(CORB_ENTRIES, w.corbWp) == w.corbRp
  }

  /** Round j of the sending loop met a full CORB and waited as long as `retries[j]` allows. */
  ghost predicate Round(w: World, q: Q.Queue, a: nat, poll: bool, retries: seq<seq<seq<Step>>>, rounds: seq<seq<Step>>, j: nat, ok: bool)
    requires Shape(w) && Q.Valid(q) && a < MAX_CODECS && j < |rounds| <= |retries|
  {
    var (w1, q1) := RunQ(w, q, Flat(rounds[..j]));
    Full(w1) && Waited(w1, q1, a, retries[j], poll, rounds[j], ok)
  }

  /** Every round so far ended with the codec's answers in. */
  ghost predicate Spun(w: World, q: Q.Queue, a: nat, poll: bool, retries: seq<seq<seq<Step>>>, rounds: seq<seq<Step>>)
    requires Shape(w) && Q.Valid(q) && a < MAX_CODECS
  {
    |rounds| <= |retries| && forall j :: 0 <= j < |rounds| ==> Round(w, q, a, poll, retries, rounds, j, true)
  }

  /** What sending has come to. OK: after some rounds there was room and the verb is on the
      CORB. EIO: the controller is gone, or a round waited in vain to the end of its sleeps.
      BUSY_RETRYING: the CORB is still full and all retries are used up. */
  ghost predicate Issued(w: World, q: Q.Queue, c: Cmd, polling: bool, asleep: bool, retries: seq<seq<seq<Step>>>, trace: seq<Step>, err: Err)
    requires Shape(w) && Q.Valid(q)
  {
    if asleep then err == EIO && trace == [Command(c, true)]
    else exists rounds :: IssuedAfter(w, q, c, polling, retries, rounds, trace, err)
  }

  ghost predicate IssuedAfter(w: World, q: Q.Queue, c: Cmd, polling: bool, retries: seq<seq<seq<Step>>>, rounds: seq<seq<Step>>, trace: seq<Step>, err: Err)
    requires Shape(w) && Q.Valid(q)
  {
    var a := CmdAddr(c);
    match err
    case OK =>
      && Spun(w, q, a, polling, retries, rounds) && !Full(RunQ(w, q, Flat(rounds)).0)
      && trace == Flat(rounds) + [Command(c, false)]
    case EIO =>
      && 0 < |rounds| <= |retries| && Spun(w, q, a, polling, retries, Front(rounds))
      && Round(w, q, a, polling, retries, rounds, |rounds| - 1, false) && trace == Flat(rounds)
    case BUSY_RETRYING =>
      && Spun(w, q, a, polling, retries, rounds) && |rounds| == |retries|
      && Full(RunQ(w, q, Flat(rounds)).0) && trace == Flat(rounds)
    case _ => false
  }

  /** With a free slot the verb is sent at once. */
  lemma IssuedAtOnce(w: World, q: Q.Queue, c: Cmd, polling: bool, asleep: bool, retries: seq<seq<seq<Step>>>, trace: seq<Step>, err: Err)
    requires Shape(w) && Q.Valid(q) && Issued(w, q, c, polling, asleep, retries, trace, err)
    requires !asleep && !Full(w)
    ensures err == OK && trace == [Command(c, false)]
  {
    var rounds :| IssuedAfter(w, q, c, polling, retries, rounds, trace, err);
    if rounds != [] {
      var first := if err == EIO && |rounds| > 1 then Front(rounds) else rounds;
      NoRoundWithRoom(w, q, CmdAddr(c), polling, retries, first, err != EIO || |rounds| > 1);
    }
  }

  lemma NoRoundWithRoom(w: World, q: Q.Queue, a: nat, poll: bool, retries: seq<seq<seq<Step>>>, rounds: seq<seq<Step>>, ok: bool)
    requires Shape(w) && Q.Valid(q) && a < MAX_CODECS && 0 < |rounds| <= |retries| && !Full(w)
    ensures !Round(w, q, a, poll, retries, rounds, 0, ok)
  {
    assert rounds[..0] == [];
  }

  /** The whole of a verb: sending it and, where a result is wanted, waiting for the answer. */
  ghost predicate Executed(w: World, q: Q.Queue, c: Cmd, wait: bool, polling: bool, asleep: bool,
                           retries: seq<seq<seq<Step>>>, waits: seq<seq<Step>>, trace: seq<Step>, err: Err)
    requires Shape(w) && Q.Valid(q)
  {
    exists sent, issue, more :: ExecutedAs(w, q, c, wait, polling, asleep, retries, waits, sent, issue, more, trace, err)
  }

  ghost predicate ExecutedAs(w: World, q: Q.Queue, c: Cmd, wait: bool, polling: bool, asleep: bool,
                             retries: seq<seq<seq<Step>>>, waits: seq<seq<Step>>,
                             sent: seq<Step>, issue: Err, more: seq<Step>, trace: seq<Step>, err: Err)
    requires Shape(w) && Q.Valid(q)
  {
    && Issued(w, q, c, polling, asleep, retries, sent, issue) && trace == sent + more
    && if issue == OK && wait then
         var (w1, q1) := RunQ(w, q, sent);
         (err == OK || err == EIO) && Waited(w1, q1, CmdAddr(c), waits, polling, more, err == OK)
       else
         err == issue && more == []
  }

  /** A verb that finds a free slot and whose answer is wanted succeeds exactly when the codec
      owes no answer at some look within `waits`. */
  lemma ExecutedSucceedsIff(w: World, q: Q.Queue, c: Cmd, wait: bool, polling: bool, asleep: bool,
                            retries: seq<seq<seq<Step>>>, waits: seq<seq<Step>>, trace: seq<Step>, err: Err)
    requires Shape(w) && Q.Valid(q) && Executed(w, q, c, wait, polling, asleep, retries, waits, trace, err)
    requires !asleep && !Full(w)
    ensures err == OK || err == EIO
    ensures err == OK <==> (wait ==> AnsweredWithin(Send(w, c, false).0, q, CmdAddr(c), waits, polling))
  {
    hide Waited, AnsweredWithin, Send, ApplyQ;
    var sent, issue, more :| ExecutedAs(w, q, c, wait, polling, asleep, retries, waits, sent, issue, more, trace, err);
    hide Issued;
    IssuedAtOnce(w, q, c, polling, asleep, retries, sent, issue);
    if wait {
      RunQSnoc(w, q, [], Command(c, false));
      assert [] + [Command(c, false)] == sent;
      ApplyCommand(w, q, c, false);
      WaitSucceedsIff(Send(w, c, false).0, q, CmdAddr(c), waits, polling, more, err == OK);
    }
  }

  // ---- and the work item --------------------------------------------------------------------

  /** `taken` is what the work item has taken off the queue, `calls` the handler calls. */
  datatype Sys = Sys(w: World, q: Q.Queue, taken: seq<Entry>, calls: seq<Q.Delivery>)

  datatype Move = OnBus(step: Step) | Serve

  ghost predicate Ok(s: Sys) {
    Inv(s.w) && Q.Valid(s.q)
  }

  function MoveOn(s: Sys, m: Move, registered: set<nat>): (r: Sys)
    requires Shape(s.w) && Q.Valid(s.q)
    ensures Shape(r.w) && Q.Valid(r.q)
  {
    match m
    case OnBus(x) => var (w, q) := ApplyQ(s.w, s.q, x); s.(w := w, q := q)
    case Serve =>
      if s.q.rp == s.q.wp then s
      else
        var (q, e) := Q.Take(s.q);
        s.(q := q, taken := s.taken + [e], calls := s.calls + Q.Dispatch(e, registered))
  }

  function Go(s: Sys, ms: seq<Move>, registered: set<nat>): (r: Sys)
    requires Shape(s.w) && Q.Valid(s.q)
    ensures Shape(r.w) && Q.Valid(r.q)
  {
    if ms == [] then s else MoveOn(Go(s, Front(ms), registered), Last(ms), registered)
  }

  /** Every event the controller has ever posted is one of: handled before (`before`), taken
      by the work item since, unread on the queue, or still on the RIRB, and in this order. */
  ghost predicate Balanced(s: Sys, before: seq<Entry>)
    requires Shape(s.w) && Q.Valid(s.q)
  {
    before + s.taken + Q.Unread(s.q) + Events(OnRing(s.w)) == Events(s.w.posted)
  }

  /** An interrupt finds room for all the events it drains. */
  ghost predicate Fits(s: Sys, m: Move)
    requires Shape(s.w) && Q.Valid(s.q)
  {
    m == OnBus(Interrupt) ==> |Q.Unread(s.q)| + |Events(OnRing(s.w))| < Q.UNSOL_QUEUE_SIZE
  }

  ghost predicate AllFit(s: Sys, ms: seq<Move>, registered: set<nat>)
    requires Shape(s.w) && Q.Valid(s.q)
  {
    ms == [] || (AllFit(s, Front(ms), registered) && Fits(Go(s, Front(ms), registered), Last(ms)))
  }

  /** How many of the posted events are unaccounted for. */
  function Missing(s: Sys, before: seq<Entry>): int
    requires Shape(s.w) && Q.Valid(s.q)
  {
    |Events(s.w.posted)| - (|before| + |s.taken| + |Q.Unread(s.q)| + |Events(OnRing(s.w))|)
  }

  // ---- one move -------------------------------------------------------------------------------

  lemma EventsSnoc(s: seq<Entry>, e: Entry)
    ensures Events(s + [e]) == Events(s) + (if IsEvent(e) then [e] else [])
  {
    assert Front(s + [e]) == s;
  }

  /** A controller step puts at most one entry on the RIRB, behind the others. */
  lemma HwPosts(w: World, h: HwStep) returns (es: seq<Entry>)
    requires Shape(w)
    ensures Hw(w, h).posted == w.posted + es && OnRing(Hw(w, h)) == OnRing(w) + es && |es| <= 1
  {
    es := if !Enabled(w, h) then [] else match h
      case Answer(a, v, ex) => [Entry(v, ex)]
      case Other(e) => [e]
      case _ => [];
    if es != [] {
      PushAppends(w.rirb, w.rirbRp, w.hwWp, es[0]);
    }
  }

  lemma QuietRing(w: World, es: seq<Entry>, before: seq<Entry>)
    requires Shape(w) && |es| <= 1
    ensures Events(before + es) == Events(before) + Events(es)
  {
    if es == [] {
      assert before + es == before;
    } else {
      EventsSnoc(before, es[0]);
      EventsSnoc([], es[0]);
      assert [] + [es[0]] == es && before + [es[0]] == before + es;
    }
  }

  lemma HwBalances(s: Sys, h: HwStep, before: seq<Entry>)
    requires Ok(s)
    ensures var r := s.(w := Hw(s.w, h));
            Missing(r, before) == Missing(s, before) && (Balanced(s, before) ==> Balanced(r, before))
  {
    var es := HwPosts(s.w, h);
    hide Hw, Events, OnRing, Q.Unread;
    QuietRing(s.w, es, s.w.posted);
    QuietRing(s.w, es, OnRing(s.w));
    var head := before + s.taken + Q.Unread(s.q);
    assert head + (Events(OnRing(s.w)) + Events(es)) == (head + Events(OnRing(s.w))) + Events(es);
  }

  /** A drain empties the RIRB onto the queue: nothing is lost exactly when it fits. */
  lemma DrainBalances(s: Sys, before: seq<Entry>)
    requires Ok(s)
    ensures var r := s.(w := Drain(s.w), q := Q.Absorb(s.q, OnRing(s.w)));
            && (Fits(s, OnBus(Interrupt)) ==> Missing(r, before) == Missing(s, before))
            && (!Fits(s, OnBus(Interrupt)) ==> Missing(r, before) > Missing(s, before))
            && (Fits(s, OnBus(Interrupt)) && Balanced(s, before) ==> Balanced(r, before))
  {
    var es := Events(OnRing(s.w));
    DrainKeepsHistory(s.w);
    Q.AbsorbIsPutAll(s.q, OnRing(s.w));
    Q.BatchSurvivesIffItFits(s.q, es);
    var r := s.(w := Drain(s.w), q := Q.Absorb(s.q, OnRing(s.w)));
    assert OnRing(r.w) == [];
    hide Drain, Q.Absorb, Q.PutAll, OnRing, Inv;
    assert |Q.Unread(r.q)| < Q.UNSOL_QUEUE_SIZE;
    hide Q.Unread;
    var head := before + s.taken;
    if Fits(s, OnBus(Interrupt)) {
      assert head + (Q.Unread(s.q) + es) + [] == head + Q.Unread(s.q) + es;
    }
  }

  lemma ServeBalances(s: Sys, registered: set<nat>, before: seq<Entry>)
    requires Ok(s)
    ensures var r := MoveOn(s, Serve, registered);
            Missing(r, before) == Missing(s, before) && (Balanced(s, before) ==> Balanced(r, before))
  {
    if s.q.rp != s.q.wp {
      var (q, e) := Q.Take(s.q);
      hide Q.Unread, Q.Take, Events, OnRing;
      assert |[e] + Q.Unread(q)| == 1 + |Q.Unread(q)|;
      assert before + (s.taken + [e]) + Q.Unread(q) == before + s.taken + ([e] + Q.Unread(q));
    }
  }

  lemma NextAccounts(s: Sys, m: Move, registered: set<nat>, before: seq<Entry>)
    requires Ok(s)
    ensures var r := MoveOn(s, m, registered);
            && Ok(r)
            && (Fits(s, m) ==> Missing(r, before) == Missing(s, before))
            && (!Fits(s, m) ==> Missing(r, before) > Missing(s, before))
            && (Fits(s, m) && Balanced(s, before) ==> Balanced(r, before))
  {
    match m
    case Serve => ServeBalances(s, registered, before);
    case OnBus(x) =>
      ApplyKeepsInv(s.w, x);
      match x
      case Controller(h) => HwBalances(s, h, before);
      case Interrupt => DrainBalances(s, before);
      case Command(c, dead) =>
        hide Events;
        assert Send(s.w, c, dead).0.posted == s.w.posted && OnRing(Send(s.w, c, dead).0) == OnRing(s.w);
  }

  lemma {:induction false} GoAccounts(s: Sys, ms: seq<Move>, registered: set<nat>, before: seq<Entry>)
    requires Ok(s)
    ensures var r := Go(s, ms, registered);
            && Ok(r) && Missing(r, before) >= Missing(s, before)
            && (AllFit(s, ms, registered) ==> Missing(r, before) == Missing(s, before))
            && (!AllFit(s, ms, registered) ==> Missing(r, before) > Missing(s, before))
            && (AllFit(s, ms, registered) && Balanced(s, before) ==> Balanced(r, before))
  {
    hide MoveOn, CodecInv, Fits, Missing, Balanced;
    if ms != [] {
      GoAccounts(s, Front(ms), registered, before);
      NextAccounts(Go(s, Front(ms), registered), Last(ms), registered, before);
    }
  }

  // ---- the theorems ----------------------------------------------------------------------------

  /** In every run of senders, controller, codecs, interrupts and work item: the events taken,
      those unread and those still on the RIRB are together exactly the events posted, in
      order and once each, if and only if every interrupt found room for the events it drained. */
  lemma DeliveredInOrderIff(s: Sys, ms: seq<Move>, registered: set<nat>, before: seq<Entry>)
    requires Ok(s) && Balanced(s, before)
    ensures Balanced(Go(s, ms, registered), before) <==> AllFit(s, ms, registered)
  {
    hide CodecInv, Go, AllFit;
    GoAccounts(s, ms, registered, before);
    BalancedMissesNothing(s, before);
    var r := Go(s, ms, registered);
    if Balanced(r, before) {
      BalancedMissesNothing(r, before);
    }
  }

  lemma BalancedMissesNothing(s: Sys, before: seq<Entry>)
    requires Shape(s.w) && Q.Valid(s.q) && Balanced(s, before)
    ensures Missing(s, before) == 0
  {
    hide Q.Unread, OnRing, Events;
    assert |before + s.taken + Q.Unread(s.q) + Events(OnRing(s.w))|
        == |before| + |s.taken| + |Q.Unread(s.q)| + |Events(OnRing(s.w))|;
  }

  /** The handler calls are, in order, one for each event taken whose codec is registered. */
  lemma {:induction false} CallsFollowEvents(s: Sys, ms: seq<Move>, registered: set<nat>)
    requires Shape(s.w) && Q.Valid(s.q) && Q.CallsFor(s.calls, s.taken, registered)
    ensures var r := Go(s, ms, registered);
            && Q.CallsFor(r.calls, r.taken, registered)
            && forall i :: 0 <= i < |r.calls| ==> r.calls[i].codec in registered
  {
    var r := Go(s, ms, registered);
    if ms != [] {
      hide Q.CallsFor, Q.Dispatch, Q.Take, ApplyQ;
      CallsFollowEvents(s, Front(ms), registered);
      var m := Go(s, Front(ms), registered);
      if Last(ms).Serve? && m.q.rp != m.q.wp {
        Q.CallsSnoc(m.calls, m.taken, registered, Q.Take(m.q).1);
      }
    }
    Q.CallsAreEvents(r.calls, r.taken, registered);
  }

  lemma {:induction false} EventsAreEvents(s: seq<Entry>)
    ensures forall k :: 0 <= k < |Events(s)| ==> IsEvent(Events(s)[k])
  {
    if s != [] {
      EventsAreEvents(Front(s));
    }
  }

  /** From start-up on, as long as the queue never overflows: once the RIRB and the queue are
      empty, every event ever posted by a registered codec has led to one call of that codec's
      handler, in order; with all of them registered, the calls are the posted events one by one. */
  lemma EveryEventReachesItsHandler(w: World, q: Q.Queue, ms: seq<Move>, registered: set<nat>)
    requires Initial(w) && Q.Valid(q) && q.rp == q.wp
    requires AllFit(Sys(w, q, [], []), ms, registered)
    ensures var r := Go(Sys(w, q, [], []), ms, registered);
            var es := Events(r.w.posted);
            r.q.rp == r.q.wp && r.w.rirbRp == r.w.hwWp ==>
              && r.taken == es && Q.CallsFor(r.calls, es, registered)
              && (forall i :: 0 <= i < |r.calls| ==> r.calls[i].codec in registered)
              && ((forall k :: 0 <= k < |es| ==> es[k].ex % 16 in registered) ==>
                    |r.calls| == |es|
                    && forall i :: 0 <= i < |es| ==> r.calls[i].codec == es[i].ex % 16 && r.calls[i].res == es[i].res)
  {
    hide Q.CallsFor, AllFit, Go, CodecInv;
    var s := Sys(w, q, [], []);
    InitialInv(w);
    assert OnRing(w) == [] && Q.Unread(q) == [];
    assert Balanced(s, []);
    DeliveredInOrderIff(s, ms, registered, []);
    Q.NoCalls(registered);
    CallsFollowEvents(s, ms, registered);
    AllTaken(Go(s, ms, registered), registered);
  }

  /** With nothing left on the way, everything posted has been taken and served. */
  lemma AllTaken(r: Sys, registered: set<nat>)
    requires Shape(r.w) && Q.Valid(r.q) && Balanced(r, []) && Q.CallsFor(r.calls, r.taken, registered)
    ensures var es := Events(r.w.posted);
            r.q.rp == r.q.wp && r.w.rirbRp == r.w.hwWp ==>
              && r.taken == es && Q.CallsFor(r.calls, es, registered)
              && ((forall k :: 0 <= k < |es| ==> es[k].ex % 16 in registered) ==>
                    |r.calls| == |es|
                    && forall i :: 0 <= i < |es| ==> r.calls[i].codec == es[i].ex % 16 && r.calls[i].res == es[i].res)
  {
    hide Q.CallsFor;
    if r.q.rp == r.q.wp && r.w.rirbRp == r.w.hwWp {
      assert OnRing(r.w) == [] && Q.Unread(r.q) == [];
      assert [] + r.taken + [] + [] == r.taken;
      hide Events, IsEvent;
      EventsAreEvents(r.w.posted);
      Q.CallsAreEvents(r.calls, r.taken, registered);
    }
  }

  // ---- stretches of moves ------------------------------------------------------------------------

  function OnBusAll(steps: seq<Step>): seq<Move> {
    if steps == [] then [] else OnBusAll(Front(steps)) + [OnBus(Last(steps))]
  }

  /** The transport's share of a run. */
  function BusSteps(ms: seq<Move>): seq<Step> {
    if ms == [] then [] else BusSteps(Front(ms)) + (if Last(ms).OnBus? then [Last(ms).step] else [])
  }

  function Flat(ss: seq<seq<Step>>): seq<Step> {
    if ss == [] then [] else Flat(Front(ss)) + Last(ss)
  }

  lemma GoSnoc(s: Sys, ms: seq<Move>, m: Move, registered: set<nat>)
    requires Shape(s.w) && Q.Valid(s.q)
    ensures Go(s, ms + [m], registered) == MoveOn(Go(s, ms, registered), m, registered)
    ensures BusSteps(ms + [m]) == BusSteps(ms) + (if m.OnBus? then [m.step] else [])
  {
    assert Front(ms + [m]) == ms;
  }

  lemma {:induction false} GoOnBus(s: Sys, ms: seq<Move>, steps: seq<Step>, registered: set<nat>)
    requires Shape(s.w) && Q.Valid(s.q)
    ensures var m := Go(s, ms, registered);
            var (w, q) := RunQ(m.w, m.q, steps);
            Go(s, ms + OnBusAll(steps), registered) == m.(w := w, q := q)
    ensures BusSteps(ms + OnBusAll(steps)) == BusSteps(ms) + steps
  {
    if steps == [] {
      assert ms + OnBusAll(steps) == ms;
    } else {
      var head := ms + OnBusAll(Front(steps));
      assert head + [OnBus(Last(steps))] == ms + OnBusAll(steps);
      assert BusSteps(ms) + Front(steps) + [Last(steps)] == BusSteps(ms) + steps;
      hide ApplyQ, Go, BusSteps, OnBusAll;
      GoOnBus(s, ms, Front(steps), registered);
      GoSnoc(s, head, OnBus(Last(steps)), registered);
    }
  }

  lemma FlatSnoc(ss: seq<seq<Step>>, s: seq<Step>)
    ensures Flat(ss + [s]) == Flat(ss) + s
  {
    assert Front(ss + [s]) == ss;
  }
}
