/** The queue between the RIRB interrupt and the work item that calls the codecs'
    unsolicited-event handlers. */
module EventQueue {
  import opened Words
  import opened Rings
  import opened Transport

  const UNSOL_QUEUE_SIZE: nat := 64

  datatype Queue = Queue(buf: seq<Entry>, rp: nat, wp: nat)

  ghost predicate Valid(q: Queue) {
    |q.buf| == UNSOL_QUEUE_SIZE && q.rp < UNSOL_QUEUE_SIZE && q.wp < UNSOL_QUEUE_SIZE
  }

  function Unread(q: Queue): (s: seq<Entry>)
    requires Valid(q)
    ensures |s| < UNSOL_QUEUE_SIZE
  {
    Pending(q.buf, q.rp, q.wp)
  }

  /** snd_hdac_bus_queue_event: the write index moves without looking at the read index. */
  function Put(q: Queue, e: Entry): (r: Queue)
    requires Valid(q)
    ensures Valid(r)
  {
    var wp := Next(UNSOL_QUEUE_SIZE, q.wp);
    q.(wp := wp, buf := q.buf[wp := e])
  }

  function PutAll(q: Queue, es: seq<Entry>): (r: Queue)
    requires Valid(q)
    ensures Valid(r)
  {
    if es == [] then q else Put(PutAll(q, Front(es)), Last(es))
  }

  function PutIfEvent(q: Queue, e: Entry): (r: Queue)
    requires Valid(q)
    ensures Valid(r)
  {
    if IsEvent(e) then Put(q, e) else q
  }

  /** What draining a stretch of RIRB entries does to the queue: its events go in, in order. */
  function Absorb(q: Queue, es: seq<Entry>): (r: Queue)
    requires Valid(q)
    ensures Valid(r)
  {
    if es == [] then q else PutIfEvent(Absorb(q, Front(es)), Last(es))
  }

  lemma {:induction false} AbsorbIsPutAll(q: Queue, es: seq<Entry>)
    requires Valid(q)
    ensures Absorb(q, es) == PutAll(q, Events(es))
  {
    if es != [] {
      AbsorbIsPutAll(q, Front(es));
      if !IsEvent(Last(es)) {
        assert Events(es) == Events(Front(es));
      } else {
        assert Front(Events(es)) == Events(Front(es)) && Last(Events(es)) == Last(es);
      }
    }
  }

  lemma {:induction false} AbsorbCons(q: Queue, e: Entry, es: seq<Entry>)
    requires Valid(q)
    ensures Absorb(q, [e] + es) == Absorb(PutIfEvent(q, e), es)
  {
    if es == [] {
      assert [e] + es == [e] && Front([e]) == [];
    } else {
      AbsorbCons(q, e, Front(es));
      assert Front([e] + es) == [e] + Front(es);
    }
  }

  /** The queue hands on a batch of events in order, behind the unread ones, exactly when
      all of them fit; with one event too many it forgets unread events silently. */
  lemma {:induction false} BatchSurvivesIffItFits(q: Queue, es: seq<Entry>)
    requires Valid(q)
    ensures Unread(PutAll(q, es)) == Unread(q) + es <==> |Unread(q)| + |es| < UNSOL_QUEUE_SIZE
  {
    if |Unread(q)| + |es| < UNSOL_QUEUE_SIZE {
      if es == [] {
        assert Unread(q) + es == Unread(q);
      } else {
        var m := PutAll(q, Front(es));
        BatchSurvivesIffItFits(q, Front(es));
        PushAppends(m.buf, m.rp, m.wp, Last(es));
        assert Unread(q) + es == (Unread(q) + Front(es)) + [Last(es)];
      }
    }
  }

  /** The worst case of the above: a full queue's worth of events disappears at once. */
  lemma FullBatchVanishes(q: Queue, es: seq<Entry>, e: Entry)
    requires Valid(q) && |Unread(q)| + |es| == UNSOL_QUEUE_SIZE - 1
    ensures Unread(PutAll(q, es + [e])) == []
  {
    BatchSurvivesIffItFits(q, es);
    var m := PutAll(q, es);
    assert Front(es + [e]) == es;
    PushOntoConsumerEmpties(m.buf, m.rp, m.wp, e);
  }

  /** Taking the oldest entry, as the work item does under the lock. */
  function Take(q: Queue): (r: (Queue, Entry))
    requires Valid(q) && q.rp != q.wp
    ensures Valid(r.0) && [r.1] + Unread(r.0) == Unread(q)
  {
    var rp := Next(UNSOL_QUEUE_SIZE, q.rp);
    PopTakesOldest(q.buf, q.rp, q.wp);
    (q.(rp := rp), q.buf[rp])
  }

  /** One call of a codec's unsolicited-event handler. */
  datatype Delivery = Delivery(codec: nat, res: u32)

  /** The handler call, if any, that an entry leads to: only registered codecs are called. */
  function Dispatch(e: Entry, registered: set<nat>): seq<Delivery> {
    if IsUnsol(e) && EntryAddr(e) in registered then [Delivery(EntryAddr(e), e.res)] else []
  }

  /** The entry is an unsolicited event of a registered codec. */
  predicate Wanted(e: Entry, registered: set<nat>) {
    e.ex / 16 % 2 == 1 && e.ex % 16 in registered
  }

  /** `calls` answers the entries at the positions `at`: these are, in order, all wanted
      entries of `es` and no others, and each call names its entry's codec and word. */
  ghost predicate CallsAt(calls: seq<Delivery>, es: seq<Entry>, registered: set<nat>, at: seq<nat>) {
    && |at| == |calls|
    && (forall i, j :: 0 <= i < j < |at| ==> at[i] < at[j])
    && (forall i :: 0 <= i < |at| ==>
          at[i] < |es| && Wanted(es[at[i]], registered) && calls[i] == Delivery(es[at[i]].ex % 16, es[at[i]].res))
    && (forall k :: 0 <= k < |es| && Wanted(es[k], registered) ==> k in at)
  }

  /** Each wanted entry has led to one handler call, in order, and nothing else has. */
  ghost predicate CallsFor(calls: seq<Delivery>, es: seq<Entry>, registered: set<nat>) {
    exists at: seq<nat> :: CallsAt(calls, es, registered, at)
  }

  lemma NoCalls(registered: set<nat>)
    ensures CallsFor([], [], registered)
  {
    assert CallsAt([], [], registered, []);
  }

  lemma CallsSnoc(calls: seq<Delivery>, es: seq<Entry>, registered: set<nat>, e: Entry)
    requires CallsFor(calls, es, registered)
    ensures CallsFor(calls + Dispatch(e, registered), es + [e], registered)
  {
    var at: seq<nat> :| CallsAt(calls, es, registered, at);
    if Wanted(e, registered) {
      WantedSnoc(calls, es, registered, at, e);
    } else {
      assert calls + Dispatch(e, registered) == calls;
      assert CallsAt(calls, es + [e], registered, at);
    }
  }

  lemma WantedSnoc(calls: seq<Delivery>, es: seq<Entry>, registered: set<nat>, at: seq<nat>, e: Entry)
    requires CallsAt(calls, es, registered, at) && Wanted(e, registered)
    ensures CallsAt(calls + [Delivery(e.ex % 16, e.res)], es + [e], registered, at + [|es|])
  {
    var cs, fs, more := calls + [Delivery(e.ex % 16, e.res)], es + [e], at + [|es|];
    forall i | 0 <= i < |more|
      ensures more[i] < |fs| && Wanted(fs[more[i]], registered) && cs[i] == Delivery(fs[more[i]].ex % 16, fs[more[i]].res)
    {
      assert i < |at| ==> fs[more[i]] == es[at[i]];
    }
    hide Wanted;
    forall k | 0 <= k < |fs| && Wanted(fs[k], registered)
      ensures k in more
    {
      assert k < |es| ==> Wanted(es[k], registered) && k in at;
      assert more[|at|] == |es|;
    }
  }

  /** Only registered codecs are called, and with every codec registered each event is
      exactly one call, the i-th event the i-th call. */
  lemma CallsAreEvents(calls: seq<Delivery>, es: seq<Entry>, registered: set<nat>)
    requires CallsFor(calls, es, registered)
    ensures forall i :: 0 <= i < |calls| ==> calls[i].codec in registered
    ensures (forall k :: 0 <= k < |es| ==> IsEvent(es[k]) && es[k].ex % 16 in registered) ==>
              |calls| == |es| && forall i :: 0 <= i < |es| ==> calls[i].codec == es[i].ex % 16 && calls[i].res == es[i].res
  {
    var at: seq<nat> :| CallsAt(calls, es, registered, at);
    forall i | 0 <= i < |calls|
      ensures calls[i].codec in registered
    {
      assert Wanted(es[at[i]], registered);
    }
    if forall k :: 0 <= k < |es| ==> IsEvent(es[k]) && es[k].ex % 16 in registered {
      AllCalled(calls, es, registered, at);
    }
  }

  lemma AllCalled(calls: seq<Delivery>, es: seq<Entry>, registered: set<nat>, at: seq<nat>)
    requires CallsAt(calls, es, registered, at)
    requires forall k :: 0 <= k < |es| ==> IsEvent(es[k]) && es[k].ex % 16 in registered
    ensures |calls| == |es| && forall i :: 0 <= i < |es| ==> calls[i].codec == es[i].ex % 16 && calls[i].res == es[i].res
  {
    forall k | 0 <= k < |es|
      ensures k in at
    {
      assert IsEvent(es[k]) && Wanted(es[k], registered);
    }
    hide Wanted, IsEvent;
    AllInPlace(at, |es|);
    forall i | 0 <= i < |es|
      ensures calls[i].codec == es[i].ex % 16 && calls[i].res == es[i].res
    {
      assert at[i] == i;
      assert calls[i] == Delivery(es[at[i]].ex % 16, es[at[i]].res);
    }
  }

  /** A strictly increasing list of exactly the positions below n. */
  lemma AllInPlace(at: seq<nat>, n: nat)
    requires forall a, b :: 0 <= a < b < |at| ==> at[a] < at[b]
    requires forall k :: 0 <= k < n ==> k in at
    requires forall a :: 0 <= a < |at| ==> at[a] < n
    ensures |at| == n && forall i :: 0 <= i < n ==> at[i] == i
  {
    forall i | 0 <= i < |at|
      ensures at[i] == i
    {
      InPlace(at, n, i);
    }
    if at != [] {
      assert at[|at| - 1] < n;
    }
    if n > 0 {
      assert n - 1 in at;
    }
  }

  lemma {:induction false} InPlace(at: seq<nat>, n: nat, i: nat)
    requires i < |at|
    requires forall a, b :: 0 <= a < b < |at| ==> at[a] < at[b]
    requires forall k :: 0 <= k < n ==> k in at
    requires forall a :: 0 <= a < |at| ==> at[a] < n
    ensures at[i] == i
  {
    if i > 0 {
      InPlace(at, n, i - 1);
    }
    if at[i] > i {
      assert i in at;
    }
  }
}
