/** The stream descriptors of a bus and their sticky assignment to PCM substreams. */
module StreamPool {
  import opened Options
  import opened Words

  /** A PCM substream; `device` is 0 when it belongs to no PCM device. */
  datatype Substream = Substream(number: nat, stream: nat, device: nat)

  predicate Proper(s: Substream) {
    s.number < 0x4000 && s.stream < 2
  }

  /** The non-zero unique key: number, direction and device in separate bits. */
  function Key(s: Substream): nat {
    s.device * 0x1_0000 + s.number * 4 + s.stream + 1
  }

  lemma KeyIsUnique(s: Substream, t: Substream)
    requires Proper(s) && Proper(t)
    ensures Key(s) != 0 && Key(s) % 4 == s.stream + 1
    ensures Key(s) == Key(t) ==> s == t
  {
    assert Key(s) == 4 * (s.device * 0x4000 + s.number) + (s.stream + 1);
    assert Key(t) == 4 * (t.device * 0x4000 + t.number) + (t.stream + 1);
  }

  /** The value of one stream descriptor. */
  datatype Slot = Slot(direction: nat, isOpen: bool, key: nat, owner: Option<Substream>)

  // ---- assignment ---------------------------------------------------------------------

  predicate Eligible(x: Slot, s: Substream) {
    x.direction == s.stream && !x.isOpen
  }

  /** The loop of snd_hdac_stream_assign over the first n descriptors: the first eligible one
      that carries the key ends the search; otherwise the first eligible one, or with
      reverse_assign the last, is taken. */
  datatype Search = Search(best: Option<nat>, stopped: bool)

  function Look(slots: seq<Slot>, s: Substream, reverse: bool, n: nat): Search
    requires n <= |slots|
  {
    if n == 0 then Search(None, false)
    else
      var r := Look(slots, s, reverse, n - 1);
      var x := slots[n - 1];
      if r.stopped || !Eligible(x, s) then r
      else if x.key == Key(s) then Search(Some(n - 1), true)
      else if r.best.None? || reverse then Search(Some(n - 1), false)
      else r
  }

  function Pick(slots: seq<Slot>, s: Substream, reverse: bool): Option<nat> {
    Look(slots, s, reverse, |slots|).best
  }

  function Assign(slots: seq<Slot>, s: Substream, reverse: bool): seq<Slot> {
    var p := Pick(slots, s, reverse);
    PickIsEligible(slots, s, reverse, |slots|);
    if p.None? then slots
    else slots[p.value := slots[p.value].(isOpen := true, key := Key(s), owner := Some(s))]
  }

  function Release(slots: seq<Slot>, i: nat): seq<Slot> {
    if i < |slots| then slots[i := slots[i].(isOpen := false, owner := None)] else slots
  }

  /** The search never hands out an open stream or one of the other direction, finds none
      only if there is none, and prefers the first stream that still carries the key; with
      none it takes the first eligible stream, or the last one in reverse. */
  lemma {:induction false} PickIsEligible(slots: seq<Slot>, s: Substream, reverse: bool, n: nat)
    requires n <= |slots|
    ensures var r := Look(slots, s, reverse, n);
            && (r.best.Some? ==> r.best.value < n && Eligible(slots[r.best.value], s))
            && (r.best.None? <==> forall i :: 0 <= i < n ==> !Eligible(slots[i], s))
            && (r.stopped <==> exists i :: 0 <= i < n && Eligible(slots[i], s) && slots[i].key == Key(s))
            && (r.stopped ==>
                  && r.best.Some? && slots[r.best.value].key == Key(s)
                  && forall i :: 0 <= i < r.best.value && Eligible(slots[i], s) ==> slots[i].key != Key(s))
            && (!r.stopped && r.best.Some? ==>
                  forall i :: (if reverse then r.best.value < i < n else 0 <= i < r.best.value) ==> !Eligible(slots[i], s))
  {
    if n > 0 {
      PickIsEligible(slots, s, reverse, n - 1);
    }
  }

  // ---- runs ------------------------------------------------------------------------------

  datatype Op = Open(s: Substream, reverse: bool) | Close(i: nat)

  function Apply(slots: seq<Slot>, op: Op): seq<Slot> {
    match op
    case Open(s, reverse) => Assign(slots, s, reverse)
    case Close(i) => Release(slots, i)
  }

  function Run(slots: seq<Slot>, ops: seq<Op>): seq<Slot> {
    if ops == [] then slots else Apply(Run(slots, Front(ops)), Last(ops))
  }

  predicate Holds(slots: seq<Slot>, s: Substream) {
    exists i :: 0 <= i < |slots| && slots[i].isOpen && slots[i].owner == Some(s)
  }

  /** No key is on two streams. */
  predicate DistinctKeys(slots: seq<Slot>) {
    forall i, j :: 0 <= i < |slots| && 0 <= j < |slots| && slots[i].key != 0 && slots[i].key == slots[j].key ==> i == j
  }

  /** A key says which way its stream runs, and an open stream carries its owner's key. */
  predicate SlotOk(x: Slot) {
    && x.direction < 2
    && (x.key != 0 ==> x.key % 4 == x.direction + 1)
    && (x.isOpen <==> x.owner.Some?)
    && (x.isOpen ==> Proper(x.owner.value) && x.key == Key(x.owner.value) && x.direction == x.owner.value.stream)
  }

  predicate Inv(slots: seq<Slot>) {
    DistinctKeys(slots) && forall i :: 0 <= i < |slots| ==> SlotOk(slots[i])
  }

  /** The PCM core opens a substream only while it is closed. */
  predicate Disciplined(slots: seq<Slot>, op: Op) {
    op.Open? ==> Proper(op.s) && !Holds(slots, op.s)
  }

  /** Once assigned, keys stay distinct exactly when the substream does not already hold an
      open stream: the one thing the caller has to see to. */
  lemma KeysStayDistinctIff(slots: seq<Slot>, s: Substream, reverse: bool)
    requires Inv(slots) && Proper(s) && Pick(slots, s, reverse).Some?
    ensures DistinctKeys(Assign(slots, s, reverse)) <==> !Holds(slots, s)
  {
    PickIsEligible(slots, s, reverse, |slots|);
    var p := Pick(slots, s, reverse).value;
    var r := Assign(slots, s, reverse);
    KeyIsUnique(s, s);
    if Holds(slots, s) {
      var i :| 0 <= i < |slots| && slots[i].isOpen && slots[i].owner == Some(s);
      assert SlotOk(slots[i]) && r[i].key == r[p].key == Key(s) && i != p;
    } else {
      forall i, j | 0 <= i < |r| && 0 <= j < |r| && r[i].key != 0 && r[i].key == r[j].key
        ensures i == j
      {
        if i != j && (i == p || j == p) {
          var k := if i == p then j else i;
          KeyMeansOwnerOrFree(slots, s, k);
        }
      }
    }
  }

  /** A stream other than the chosen one that carries the key is either held by the very
      substream or would have been found. */
  lemma KeyMeansOwnerOrFree(slots: seq<Slot>, s: Substream, k: nat)
    requires Inv(slots) && Proper(s) && k < |slots| && slots[k].key == Key(s)
    ensures Holds(slots, s) || Eligible(slots[k], s)
  {
    KeyIsUnique(s, s);
    assert SlotOk(slots[k]);
    if slots[k].isOpen {
      KeyIsUnique(slots[k].owner.value, s);
    }
  }

  lemma ApplyKeepsInv(slots: seq<Slot>, op: Op)
    requires Inv(slots) && Disciplined(slots, op)
    ensures Inv(Apply(slots, op))
  {
    if op.Open? && Pick(slots, op.s, op.reverse).Some? {
      PickIsEligible(slots, op.s, op.reverse, |slots|);
      KeyIsUnique(op.s, op.s);
      KeysStayDistinctIff(slots, op.s, op.reverse);
    }
  }

  predicate DisciplinedRun(slots: seq<Slot>, ops: seq<Op>) {
    forall n :: 0 <= n < |ops| ==> Disciplined(Run(slots, ops[..n]), ops[n])
  }

  /** All streams closed and without a key, as after boot. */
  predicate Fresh(slots: seq<Slot>) {
    forall i :: 0 <= i < |slots| ==> slots[i].direction < 2 && slots[i] == Slot(slots[i].direction, false, 0, None)
  }

  lemma {:induction false} RunKeepsInv(slots: seq<Slot>, ops: seq<Op>)
    requires Inv(slots) && DisciplinedRun(slots, ops)
    ensures Inv(Run(slots, ops))
  {
    if ops != [] {
      assert forall n :: 0 <= n < |ops| - 1 ==> Front(ops)[..n] == ops[..n];
      RunKeepsInv(slots, Front(ops));
      assert ops[..|ops| - 1] == Front(ops);
      ApplyKeepsInv(Run(slots, Front(ops)), Last(ops));
    }
  }

  /** Over every run: keys stay distinct, every open stream has one owner of its own
      direction, and no substream holds two. */
  lemma NobodyHoldsTwo(slots: seq<Slot>, ops: seq<Op>)
    requires Fresh(slots) && DisciplinedRun(slots, ops)
    ensures var r := Run(slots, ops);
            && DistinctKeys(r)
            && (forall i :: 0 <= i < |r| && r[i].isOpen ==> r[i].owner.Some? && r[i].owner.value.stream == r[i].direction)
            && (forall i, j :: 0 <= i < |r| && 0 <= j < |r| && r[i].isOpen && r[j].isOpen && r[i].owner == r[j].owner ==> i == j)
  {
    RunKeepsInv(slots, ops);
    var r := Run(slots, ops);
    forall i | 0 <= i < |r| && r[i].isOpen
      ensures SlotOk(r[i]) && r[i].key != 0
    {
      KeyIsUnique(r[i].owner.value, r[i].owner.value);
    }
  }

  /** NULL means that every stream of the direction is open. */
  lemma NullIffAllOpen(slots: seq<Slot>, s: Substream, reverse: bool)
    ensures Pick(slots, s, reverse).None? <==>
            forall i :: 0 <= i < |slots| && slots[i].direction == s.stream ==> slots[i].isOpen
  {
    PickIsEligible(slots, s, reverse, |slots|);
    assert forall i :: 0 <= i < |slots| ==> (Eligible(slots[i], s) <==> slots[i].direction == s.stream && !slots[i].isOpen);
  }

  /** Stream i changes hands in the run. */
  predicate TakenIn(slots: seq<Slot>, ops: seq<Op>, i: nat) {
    exists n :: 0 <= n < |ops| && ops[n].Open? && Pick(Run(slots, ops[..n]), ops[n].s, ops[n].reverse) == Some(i)
  }

  lemma {:induction false} UntakenKeepsKey(slots: seq<Slot>, ops: seq<Op>, i: nat)
    requires i < |slots| && !slots[i].isOpen && !TakenIn(slots, ops, i)
    ensures var r := Run(slots, ops);
            |r| == |slots| && !r[i].isOpen && r[i].key == slots[i].key && r[i].direction == slots[i].direction
  {
    if ops != [] {
      assert forall n :: 0 <= n < |ops| - 1 ==> Front(ops)[..n] == ops[..n];
      assert ops[..|ops| - 1] == Front(ops);
      UntakenKeepsKey(slots, Front(ops), i);
      PickIsEligible(Run(slots, Front(ops)), if Last(ops).Open? then Last(ops).s else Substream(0, 0, 0),
                     Last(ops).Open? && Last(ops).reverse, |slots|);
    }
  }

  /** Stickiness: a substream that closes stream i and opens again, after any run in which
      nobody else was given stream i, gets stream i back. */
  lemma ReopenGetsSameStream(slots: seq<Slot>, s: Substream, i: nat, ops: seq<Op>, reverse: bool)
    requires Inv(slots) && i < |slots| && slots[i].isOpen && slots[i].owner == Some(s)
    requires DisciplinedRun(Release(slots, i), ops) && !TakenIn(Release(slots, i), ops, i)
    ensures Pick(Run(Release(slots, i), ops), s, reverse) == Some(i)
  {
    var closed := Release(slots, i);
    var r := Run(closed, ops);
    assert SlotOk(slots[i]);
    ApplyKeepsInv(slots, Close(i));
    RunKeepsInv(closed, ops);
    UntakenKeepsKey(closed, ops, i);
    PickIsEligible(r, s, reverse, |r|);
    KeyIsUnique(s, s);
    assert Eligible(r[i], s) && r[i].key == Key(s);
  }

  // ---- the stream objects -------------------------------------------------------------------

  class HdacStream {
    const direction: nat
    var isOpen: bool
    var running: bool
    var assignedKey: nat
    var substream: Option<Substream>

    constructor (direction: nat)
      ensures View() == Slot(direction, false, 0, None)
    {
      this.direction := direction;
      isOpen, running, assignedKey, substream := false, false, 0, None;
    }

    ghost function View(): Slot
      reads this
    {
      Slot(direction, isOpen, assignedKey, substream)
    }

    /** snd_hdac_stream_release_locked. */
    method ReleaseLocked()
      modifies this
      ensures View() == old(View()).(isOpen := false, owner := None) && !running
    {
      isOpen, running, substream := false, false, None;
    }
  }

  class StreamList {
    const streams: seq<HdacStream>
    const reverseAssign: bool

    constructor (streams: seq<HdacStream>, reverseAssign: bool)
      ensures this.streams == streams && this.reverseAssign == reverseAssign
    {
      this.streams, this.reverseAssign := streams, reverseAssign;
    }

    ghost predicate Valid() {
      forall i, j :: 0 <= i < j < |streams| ==> streams[i] != streams[j]
    }

    ghost function View(): (r: seq<Slot>)
      reads streams
      ensures |r| == |streams|
    {
      seq(|streams|, i requires 0 <= i < |streams| reads streams => streams[i].View())
    }

    /** snd_hdac_stream_assign. */
    method AssignStream(s: Substream) returns (res: HdacStream?)
      requires Valid()
      modifies streams
      ensures View() == Assign(old(View()), s, reverseAssign)
      ensures res == null <==> Pick(old(View()), s, reverseAssign).None?
      ensures res != null ==>
                var p := Pick(old(View()), s, reverseAssign).value;
                p < |streams| && res == streams[p] && res.isOpen && !res.running && res.substream == Some(s)
    {
      var key := s.device * 0x1_0000 + s.number * 4 + s.stream + 1;
      res := null;
      ghost var at: Option<nat> := None;
      var i := 0;
      ghost var stopped := false;
      while i < |streams|
        invariant i <= |streams| && !stopped
        invariant Look(View(), s, reverseAssign, i) == Search(at, false)
        invariant res == null <==> at.None?
        invariant at.Some? ==> at.value < i && res == streams[at.value]
        invariant View() == old(View())
      {
        var azx := streams[i];
        i := i + 1;
        if azx.direction != s.stream {
          continue;
        }
        if azx.isOpen {
          continue;
        }
        if azx.assignedKey == key {
          res, at, stopped := azx, Some(i - 1), true;
          break;
        }
        if res == null || reverseAssign {
          res, at := azx, Some(i - 1);
        }
      }
      StopIsFinal(View(), s, reverseAssign, i);
      if res != null {
        res.isOpen := true;
        res.running := false;
        res.assignedKey := key;
        res.substream := Some(s);
      }
    }
  }

  lemma {:induction false} StopIsFinal(slots: seq<Slot>, s: Substream, reverse: bool, n: nat)
    requires n <= |slots| && (Look(slots, s, reverse, n).stopped || n == |slots|)
    ensures Look(slots, s, reverse, |slots|) == Look(slots, s, reverse, n)
    decreases |slots| - n
  {
    if n < |slots| {
      StopIsFinal(slots, s, reverse, n + 1);
    }
  }
}
