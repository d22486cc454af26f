/** Reading a widget's connection list (section 7.3.3.3 of the High Definition Audio
    Specification): elements are packed two or four to a word, and an element with its
    top bit set stands for the range from its predecessor. */
module Connections {
  import opened Options
  import opened Words

  /** One element: does it close a range, and which node does it name? */
  datatype Elem = Elem(range: bool, val: nat)

  // ---- meaning ----------------------------------------------------------------------

  /** lo, lo + 1, ..., hi - 1. */
  function UpTo(lo: nat, hi: nat): (r: seq<nat>)
    ensures |r| == if hi <= lo then 0 else hi - lo
    decreases hi
  {
    if hi <= lo then [] else UpTo(lo, hi - 1) + [hi - 1]
  }

  /** What one element adds after node `prev`: itself, or the nodes after `prev` up to it.
      A range without a proper start adds nothing. */
  function Adds(e: Elem, prev: nat): seq<nat> {
    if !e.range then [e.val]
    else if prev == 0 || prev >= e.val then []
    else UpTo(prev + 1, e.val + 1)
  }

  /** The last node named, after e; a range without a proper start does not count. */
  function PrevAfter(e: Elem, prev: nat): nat {
    if e.range && (prev == 0 || prev >= e.val) then prev else e.val
  }

  lemma {:induction false} UpToAt(lo: nat, hi: nat, k: nat)
    requires k < hi - lo
    ensures UpTo(lo, hi)[k] == lo + k
    decreases hi
  {
    if k < hi - 1 - lo {
      UpToAt(lo, hi - 1, k);
    }
  }

  /** The nodes an element adds, one by one: a range runs from behind its predecessor up to
      and including its own node, a single element adds its node, and a range with no
      predecessor or not above it adds nothing. */
  lemma AddsNodes(e: Elem, prev: nat)
    ensures !e.range ==> Adds(e, prev) == [e.val] && PrevAfter(e, prev) == e.val
    ensures e.range && 0 < prev < e.val ==>
              && |Adds(e, prev)| == e.val - prev && PrevAfter(e, prev) == e.val
              && forall k: nat :: k < e.val - prev ==> Adds(e, prev)[k] == prev + 1 + k
    ensures e.range && !(0 < prev < e.val) ==> Adds(e, prev) == [] && PrevAfter(e, prev) == prev
  {
    if e.range && 0 < prev < e.val {
      forall k: nat | k < e.val - prev
        ensures Adds(e, prev)[k] == prev + 1 + k
      {
        UpToAt(prev + 1, e.val + 1, k);
      }
    }
  }

  /** The list an element sequence stands for. */
  function Expand(es: seq<Elem>, prev: nat): seq<nat> {
    if es == [] then [] else Adds(es[0], prev) + Expand(es[1..], PrevAfter(es[0], prev))
  }

  function Zeros(es: seq<Elem>): nat {
    if es == [] then 0 else (if es[0].val == 0 then 1 else 0) + Zeros(es[1..])
  }

  // ---- what the driver computes --------------------------------------------------------

  /** How the call ends, and what it has written by then. */
  datatype Result = Count(n: nat, list: seq<nat>) | NoSpace(list: seq<nat>) | IoError(list: seq<nat>) | Malformed(list: seq<nat>)

  function ReturnValue(r: Result): int {
    match r
    case Count(n, _) => n
    case NoSpace(_) => -28
    case IoError(_) => -5
    case Malformed(_) => 0
  }

  /** Element i as the codec reports it; None when its word cannot be read. */
  type Source = nat -> Option<Elem>

  /** The main loop from element i on: `out` is the list so far (or just counted, when there
      is no array), `cap` the array's size. A second zero element ends the call with 0. */
  function Scan(src: Source, len: nat, i: nat, prev: nat, nulls: nat, out: seq<nat>, cap: Option<nat>): Result
    requires i <= len && (cap.Some? ==> |out| <= cap.value)
    decreases len - i
  {
    if i == len then Count(|out|, out)
    else if src(i).None? then IoError(out)
    else
      var e := src(i).value;
      if e.val == 0 && nulls > 0 then Malformed(out)
      else
        var nulls' := if e.val == 0 then nulls + 1 else nulls;
        var more := Adds(e, prev);
        if cap.Some? && |out| + |more| > cap.value then NoSpace(out + more[..cap.value - |out|])
        else Scan(src, len, i + 1, PrevAfter(e, prev), nulls', out + more, cap)
  }

  /** The elements from i on, when all of them can be read. */
  function Elems(src: Source, len: nat, i: nat): seq<Elem>
    requires i <= len && forall k :: i <= k < len ==> src(k).Some?
    decreases len - i
  {
    if i == len then [] else [src(i).value] + Elems(src, len, i + 1)
  }

  /** The elements before the second zero one; all of them if there is none. */
  function BeforeSecondZero(es: seq<Elem>, nulls: nat): (r: seq<Elem>)
    ensures |r| <= |es|
  {
    if es == [] || (es[0].val == 0 && nulls > 0) then []
    else [es[0]] + BeforeSecondZero(es[1..], if es[0].val == 0 then nulls + 1 else nulls)
  }

  lemma {:induction false} CutShortIff(es: seq<Elem>, nulls: nat)
    requires nulls <= 1
    ensures |BeforeSecondZero(es, nulls)| < |es| <==> nulls + Zeros(es) > 1
    ensures |BeforeSecondZero(es, nulls)| == |es| ==> BeforeSecondZero(es, nulls) == es
  {
    if es != [] && !(es[0].val == 0 && nulls > 0) {
      CutShortIff(es[1..], if es[0].val == 0 then nulls + 1 else nulls);
      assert es == [es[0]] + es[1..];
    }
  }

  /** What the elements es amount to, behind `out`: the expansion of those before the second
      zero, or its beginning and lack of space if the array is too short; a second zero then
      spoils the list. */
  function Outcome(es: seq<Elem>, prev: nat, nulls: nat, out: seq<nat>, cap: Option<nat>): Result {
    var sound := BeforeSecondZero(es, nulls);
    var all := out + Expand(sound, prev);
    if cap.Some? && |all| > cap.value then NoSpace(all[..cap.value])
    else if |sound| < |es| then Malformed(all)
    else Count(|all|, all)
  }

  /** The main result: with no read error the loop computes that outcome, with and without
      an array. */
  lemma {:induction false} ScanExpands(src: Source, len: nat, i: nat, prev: nat, nulls: nat, out: seq<nat>, cap: Option<nat>)
    requires i <= len && (cap.Some? ==> |out| <= cap.value) && forall k :: i <= k < len ==> src(k).Some?
    ensures Scan(src, len, i, prev, nulls, out, cap) == Outcome(Elems(src, len, i), prev, nulls, out, cap)
    decreases len - i
  {
    if i == len {
      assert out + [] == out;
    } else {
      var e := src(i).value;
      var es := Elems(src, len, i);
      assert es[0] == e && es[1..] == Elems(src, len, i + 1);
      if e.val == 0 && nulls > 0 {
        assert out + [] == out;
      } else {
        var nulls', more := if e.val == 0 then nulls + 1 else nulls, Adds(e, prev);
        var sound := BeforeSecondZero(es[1..], nulls');
        var rest := Expand(sound, PrevAfter(e, prev));
        assert BeforeSecondZero(es, nulls)[1..] == sound;
        assert out + (more + rest) == (out + more) + rest;
        if !(cap.Some? && |out| + |more| > cap.value) {
          ScanExpands(src, len, i + 1, PrevAfter(e, prev), nulls', out + more, cap);
        } else {
          assert (out + more[..cap.value - |out|]) == (out + more + rest)[..cap.value];
        }
      }
    }
  }

  /** A word that cannot be read ends the call with -EIO, with everything before it stored,
      unless what comes before it has ended the call already. */
  lemma {:induction false} ReadErrorEnds(src: Source, len: nat, i: nat, j: nat, prev: nat, nulls: nat, out: seq<nat>, cap: Option<nat>)
    requires i <= j < len && (cap.Some? ==> |out| <= cap.value)
    requires (forall k :: i <= k < j ==> src(k).Some?) && src(j).None?
    ensures var before := Outcome(Elems(src, j, i), prev, nulls, out, cap);
            Scan(src, len, i, prev, nulls, out, cap) == if before.Count? then IoError(before.list) else before
    ensures ReturnValue(IoError(out)) == -5
    decreases j - i
  {
    if i == j {
      assert out + [] == out;
    } else {
      var e, es := src(i).value, Elems(src, j, i);
      assert es[0] == e && es[1..] == Elems(src, j, i + 1);
      if e.val == 0 && nulls > 0 {
        assert out + [] == out;
      } else {
        var nulls', more := if e.val == 0 then nulls + 1 else nulls, Adds(e, prev);
        OutcomeStep(es, prev, nulls, out, cap);
        ScanStep(src, len, i, prev, nulls, out, cap);
        if !(cap.Some? && |out| + |more| > cap.value) {
          hide Outcome, Scan;
          ReadErrorEnds(src, len, i + 1, j, PrevAfter(e, prev), nulls', out + more, cap);
        }
      }
    }
  }

  lemma OutcomeStep(es: seq<Elem>, prev: nat, nulls: nat, out: seq<nat>, cap: Option<nat>)
    requires es != [] && !(es[0].val == 0 && nulls > 0)
    ensures var e := es[0];
            var more := Adds(e, prev);
            Outcome(es, prev, nulls, out, cap) ==
              if cap.Some? && |out| + |more| > cap.value then NoSpace((out + more)[..cap.value])
              else Outcome(es[1..], PrevAfter(e, prev), if e.val == 0 then nulls + 1 else nulls, out + more, cap)
  {
    var e, more := es[0], Adds(es[0], prev);
    var sound := BeforeSecondZero(es[1..], if e.val == 0 then nulls + 1 else nulls);
    var rest := Expand(sound, PrevAfter(e, prev));
    assert BeforeSecondZero(es, nulls)[1..] == sound;
    assert out + (more + rest) == (out + more) + rest;
    if cap.Some? && |out| + |more| > cap.value {
      assert (out + more + rest)[..cap.value] == (out + more)[..cap.value];
    }
  }

  /** The call gives the list up exactly when it has more than one zero element and what
      comes before the second one does not exhaust the array. Its return value is 0 exactly
      then, or when the elements add nothing at all. */
  lemma SecondZeroIsFatal(es: seq<Elem>, cap: Option<nat>)
    ensures var r, sound := Outcome(es, 0, 0, [], cap), Expand(BeforeSecondZero(es, 0), 0);
            && (r.Malformed? <==> Zeros(es) > 1 && (cap.Some? ==> |sound| <= cap.value))
            && (ReturnValue(r) == 0 <==> r.Malformed? || (Zeros(es) <= 1 && sound == []))
  {
    CutShortIff(es, 0);
    assert [] + Expand(BeforeSecondZero(es, 0), 0) == Expand(BeforeSecondZero(es, 0), 0);
  }

  // ---- words ---------------------------------------------------------------------------

  /** A word after k elements have been shifted out; `base` is 256 or 65536. */
  function Shifted(w: nat, base: nat, k: nat): nat
    requires base > 0
  {
    if k == 0 then w else ShiftOut(Shifted(w, base, k - 1), base)
  }

  function ShiftOut(x: nat, base: nat): nat
    requires base > 0
  {
    x / base
  }

  function ElemOf(x: nat, half: nat): Elem
    requires half > 0
  {
    Elem(x / half % 2 == 1, x % half)
  }

  /** The codec's answers as elements: word i - i % per holds elements i - i % per onwards. */
  function FromWords(read: nat -> Option<u32>, per: nat, base: nat, half: nat): Source
    requires per > 0 && base > 0 && half > 0
  {
    (i: nat) =>
      match read(i - i % per)
      case None => None
      case Some(w) => Some(ElemOf(Shifted(w, base, i % per), half))
  }

  /** The whole call: no list, a single connection, or the main loop. The length parameter
      has the list length in its low seven bits and the long form in the next. */
  function Connect(parm: u32, read: nat -> Option<u32>, cap: Option<nat>): Result
  {
    var long, len := parm / 0x80 % 2 == 1, parm % 0x80;
    var per, half := if long then 2 else 4, if long then 0x8000 else 0x80;
    if parm == 0 || len == 0 then Count(0, [])
    else if len == 1 then
      match read(0)
      case None => IoError([])
      case Some(w) => Count(1, [w % half])
    else Scan(FromWords(read, per, 2 * half, half), len, 0, 0, 0, [], cap)
  }

  // ---- packing ---------------------------------------------------------------------------

  /** An element as the codec encodes it: the range bit above the node number. */
  function Code(e: Elem, half: nat): nat {
    e.val + if e.range then half else 0
  }

  /** Elements packed into a word, the first one lowest. */
  function Packed(es: seq<Elem>, half: nat): nat {
    if es == [] then 0 else Code(es[0], half) + 2 * half * Packed(es[1..], half)
  }

  predicate Fit(es: seq<Elem>, half: nat) {
    forall k :: 0 <= k < |es| ==> es[k].val < half
  }

  lemma LowElement(e: Elem, y: nat, half: nat)
    requires e.val < half
    ensures ElemOf(Code(e, half) + 2 * half * y, half) == e
    ensures ShiftOut(Code(e, half) + 2 * half * y, 2 * half) == y
  {
    var r := if e.range then 1 else 0;
    var x := Code(e, half) + 2 * half * y;
    assert x == half * (r + 2 * y) + e.val by {
      assert half * (r + 2 * y) == half * r + half * (2 * y);
      assert half * (2 * y) == 2 * half * y;
    }
    DivisionIsUnique(x, half, r + 2 * y, e.val);
    DivisionIsUnique(x, 2 * half, y, Code(e, half));
  }

  /** Shifting and masking takes a packed word apart again. */
  lemma {:induction false} ShiftedPacked(es: seq<Elem>, half: nat, k: nat)
    requires half > 0 && k < |es| && Fit(es, half)
    ensures Shifted(Packed(es, half), 2 * half, k) == Packed(es[k..], half)
    ensures ElemOf(Packed(es[k..], half), half) == es[k]
  {
    LowElement(es[k], Packed(es[k..][1..], half), half);
    if k > 0 {
      ShiftedPacked(es, half, k - 1);
      assert es[k - 1..][1..] == es[k..];
      LowElement(es[k - 1], Packed(es[k..], half), half);
    } else {
      assert es[0..] == es;
    }
  }

  lemma {:induction false} ElemsAre(src: Source, len: nat, i: nat, es: seq<Elem>)
    requires i <= len <= |es| && forall k :: i <= k < len ==> src(k) == Some(es[k])
    ensures Elems(src, len, i) == es[i..len]
    decreases len - i
  {
    if i < len {
      ElemsAre(src, len, i + 1, es);
      assert es[i..len] == [es[i]] + es[i + 1..len];
    }
  }

  /** The packed words of a list that fills whole words. */
  ghost predicate Holds(read: nat -> Option<u32>, es: seq<Elem>, per: nat, half: nat)
    requires per > 0
  {
    && |es| % per == 0 && Fit(es, half)
    && forall j: nat :: j % per == 0 && j < |es| ==> j + per <= |es| && read(j) == Some(Packed(es[j..j + per], half))
  }

  lemma WordsHold(read: nat -> Option<u32>, es: seq<Elem>, per: nat, half: nat, i: nat)
    requires per > 0 && half > 0 && i < |es| && Holds(read, es, per, half)
    ensures FromWords(read, per, 2 * half, half)(i) == Some(es[i])
  {
    hide Packed, Shifted, ElemOf;
    var k: nat := i % per;
    var j: nat := i - k;
    WordStart(i, per);
    assert read(j) == Some(Packed(es[j..j + per], half));
    assert es[j..j + per][k] == es[i];
    assert Fit(es[j..j + per], half);
    ShiftedPacked(es[j..j + per], half, k);
  }

  lemma WordStart(i: nat, per: nat)
    requires per > 0
    ensures i % per < per && i - i % per >= 0 && (i - i % per) % per == 0
  {
    assert i == per * (i / per) + i % per;
    DivisionIsUnique(i - i % per, per, i / per, 0);
  }

  lemma ScanPacked(read: nat -> Option<u32>, per: nat, half: nat, len: nat, cap: Option<nat>, es: seq<Elem>)
    requires per > 0 && half > 0 && len <= |es| && Holds(read, es, per, half)
    ensures Scan(FromWords(read, per, 2 * half, half), len, 0, 0, 0, [], cap) == Outcome(es[..len], 0, 0, [], cap)
  {
    hide Scan, Expand, Packed, Elems, Zeros, Outcome;
    var src := FromWords(read, per, 2 * half, half);
    forall k: nat | k < len ensures src(k) == Some(es[k]) {
      WordsHold(read, es, per, half, k);
    }
    ElemsAre(src, len, 0, es);
    assert es[0..len] == es[..len];
    ScanExpands(src, len, 0, 0, 0, [], cap);
  }

  /** The whole call on a list of two or more elements, as the codec packs it (whatever
      fills the rest of the last word): it returns the outcome of the elements, the same
      with and without an array. */
  lemma ConnectExpands(parm: u32, read: nat -> Option<u32>, cap: Option<nat>, es: seq<Elem>)
    requires 2 <= parm % 0x80 <= |es|
    requires if parm / 0x80 % 2 == 1 then Holds(read, es, 2, 0x8000) else Holds(read, es, 4, 0x80)
    ensures Connect(parm, read, cap) == Outcome(es[..parm % 0x80], 0, 0, [], cap)
  {
    hide Scan, Holds, Outcome, FromWords;
    if parm / 0x80 % 2 == 1 {
      ScanPacked(read, 2, 0x8000, parm % 0x80, cap, es);
    } else {
      ScanPacked(read, 4, 0x80, parm % 0x80, cap, es);
    }
  }

  /** A single connection is read from the first word and is the node of its first element,
      whatever else the word holds and however large the array is; an empty list is empty. */
  lemma SingleConnection(parm: u32, read: nat -> Option<u32>, cap: Option<nat>, e: Elem, others: nat)
    requires var half := if parm / 0x80 % 2 == 1 then 0x8000 else 0x80;
             e.val < half && Code(e, half) + 2 * half * others < TWO_32 && read(0) == Some(Code(e, half) + 2 * half * others)
    ensures parm % 0x80 == 1 ==> Connect(parm, read, cap) == Count(1, [e.val])
    ensures parm % 0x80 == 0 ==> Connect(parm, read, cap) == Count(0, [])
  {
    LowElement(e, others, if parm / 0x80 % 2 == 1 then 0x8000 else 0x80);
  }

  /** With at most one zero element the outcome is the plain expansion: counted, stored, or
      refused with the array full exactly when it is longer than the array. */
  lemma SoundListExpands(es: seq<Elem>, cap: Option<nat>)
    requires Zeros(es) <= 1
    ensures var all := Expand(es, 0);
            Outcome(es, 0, 0, [], cap) ==
              if cap.Some? && |all| > cap.value then NoSpace(all[..cap.value]) else Count(|all|, all)
    ensures ReturnValue(Outcome(es, 0, 0, [], cap)) ==
              if cap.Some? && |Expand(es, 0)| > cap.value then -28 else |Expand(es, 0)|
  {
    CutShortIff(es, 0);
    assert [] + Expand(es, 0) == Expand(es, 0);
  }

  /** snd_hdac_get_connections. With an array it writes exactly the list of the result, from
      index 0 on, and nothing at or past max_conns, except that a single connection is
      stored without a look at max_conns. */
  method GetConnections(parm: u32, read: nat -> Option<u32>, connList: array?<nat>, maxConns: nat) returns (r: int)
    requires connList != null ==> maxConns <= connList.Length && connList.Length > 0
    modifies if connList == null then {} else {connList}
    ensures var res := Connect(parm, read, if connList == null then None else Some(maxConns));
            && r == ReturnValue(res)
            && (connList != null ==> |res.list| <= connList.Length && connList[..] == res.list + old(connList[..])[|res.list|..])
            && (connList != null ==> (|res.list| <= maxConns <==> !(parm % 0x80 == 1 && read(0).Some? && maxConns == 0)))
  {
    if parm == 0 {
      return 0;
    }
    var half, numElems := 0x80, 4;
    if parm / 0x80 % 2 == 1 {
      half, numElems := 0x8000, 2;
    }
    var connLen := parm % 0x80;
    if connLen == 0 {
      return 0;
    }
    if connLen == 1 {
      var w := read(0);
      if w.None? {
        return -5;
      }
      if connList != null {
        connList[0] := w.value % half;
      }
      return 1;
    }
    r := MultiConnections(read, numElems, 2 * half, half, connLen, connList, maxConns);
  }

  /** Element i of the list is stored if there is an array with room for it. */
  method Emit(connList: array?<nat>, conns: nat, maxConns: nat, n: nat) returns (ok: bool)
    requires connList != null ==> maxConns <= connList.Length
    modifies if connList == null then {} else {connList}
    ensures ok <==> connList == null || conns < maxConns
    ensures connList != null ==> connList[..] == if ok then old(connList[..])[conns := n] else old(connList[..])
  {
    if connList != null {
      if conns >= maxConns {
        return false;
      }
      connList[conns] := n;
    }
    return true;
  }

  /** The nodes of one element, one after the other. */
  method EmitAll(connList: array?<nat>, conns: nat, maxConns: nat, lo: nat, hi: nat, ghost before: seq<nat>, ghost tail: seq<nat>)
    returns (ok: bool, conns': nat)
    requires lo <= hi && |before| == conns
    requires connList != null ==> conns <= maxConns <= connList.Length
    requires connList != null ==> |tail| == connList.Length && connList[..] == before + tail[conns..]
    modifies if connList == null then {} else {connList}
    ensures ok <==> connList == null || conns + (hi - lo) <= maxConns
    ensures ok ==> conns' == conns + (hi - lo)
    ensures connList != null && ok ==> connList[..] == before + UpTo(lo, hi) + tail[conns'..]
    ensures connList != null && !ok ==> connList[..] == (before + UpTo(lo, hi))[..maxConns] + tail[maxConns..]
  {
    var n := lo;
    conns' := conns;
    while n < hi
      invariant lo <= n <= hi && conns' == conns + (n - lo)
      invariant connList != null ==> conns' <= maxConns
      invariant connList != null ==> connList[..] == before + UpTo(lo, n) + tail[conns'..]
    {
      UpToPrefix(lo, n, hi);
      ok := Emit(connList, conns', maxConns, n);
      if !ok {
        assert before + UpTo(lo, n) == (before + UpTo(lo, hi))[..maxConns];
        return;
      }
      assert UpTo(lo, n + 1) == UpTo(lo, n) + [n];
      n, conns' := n + 1, conns' + 1;
    }
    ok := true;
  }

  lemma {:induction false} UpToPrefix(lo: nat, n: nat, hi: nat)
    requires lo <= n <= hi
    ensures UpTo(lo, n) <= UpTo(lo, hi)
  {
    if n < hi {
      UpToPrefix(lo, n, hi - 1);
    }
  }

  /** One step of the loop. */
  lemma ScanStep(src: Source, len: nat, i: nat, prev: nat, nulls: nat, out: seq<nat>, cap: Option<nat>)
    requires i < len && (cap.Some? ==> |out| <= cap.value) && src(i).Some?
    ensures var e := src(i).value;
            var more := Adds(e, prev);
            Scan(src, len, i, prev, nulls, out, cap) ==
              if e.val == 0 && nulls > 0 then Malformed(out)
              else if cap.Some? && |out| + |more| > cap.value then NoSpace((out + more)[..cap.value])
              else Scan(src, len, i + 1, PrevAfter(e, prev), if e.val == 0 then nulls + 1 else nulls, out + more, cap)
  {
    var more := Adds(src(i).value, prev);
    if cap.Some? && |out| + |more| > cap.value {
      assert out + more[..cap.value - |out|] == (out + more)[..cap.value];
    }
  }

  /** The loop over the elements of a longer list. */
  method MultiConnections(read: nat -> Option<u32>, numElems: nat, base: nat, half: nat, connLen: nat, connList: array?<nat>, maxConns: nat)
    returns (r: int)
    requires numElems > 0 && base > 0 && half > 0
    requires connList != null ==> maxConns <= connList.Length
    modifies if connList == null then {} else {connList}
    ensures var res := Scan(FromWords(read, numElems, base, half), connLen, 0, 0, 0, [], if connList == null then None else Some(maxConns));
            && r == ReturnValue(res)
            && (connList != null ==> |res.list| <= maxConns && connList[..] == res.list + old(connList[..])[|res.list|..])
  {
    hide Scan, UpTo, Shifted;
    var i: nat, conns: nat, prevNid: nat, nullCount: nat, word: nat := 0, 0, 0, 0, 0;
    ghost var src := FromWords(read, numElems, base, half);
    ghost var cap := if connList == null then None else Some(maxConns);
    ghost var out: seq<nat> := [];
    ghost var tail := if connList == null then [] else connList[..];
    while i < connLen
      invariant i <= connLen && |out| == conns
      invariant connList != null ==> conns <= maxConns && connList[..] == out + tail[conns..]
      invariant Scan(src, connLen, 0, 0, 0, [], cap) == Scan(src, connLen, i, prevNid, nullCount, out, cap)
      invariant InWord(read, numElems, base, i, word)
      decreases connLen - i
    {
      if i % numElems == 0 {
        var w := read(i);
        if w.None? {
          FailedRead(src, connLen, i, prevNid, nullCount, out, cap);
          return -5;
        }
        word := w.value;
      }
      ghost var e := ElemOf(word, half);
      WordStep(read, numElems, base, half, i, word);
      ScanStep(src, connLen, i, prevNid, nullCount, out, cap);
      var rangeVal, val := word / half % 2 == 1, word % half;
      if val == 0 {
        if nullCount > 0 {
          return 0;
        }
        nullCount := nullCount + 1;
      }
      word := ShiftOut(word, base);
      i := i + 1;
      var lo: nat, hi: nat := val, val + 1;
      if rangeVal {
        if prevNid == 0 || prevNid >= val {
          assert out + [] == out;
          continue;
        }
        lo := prevNid + 1;
      }
      OneNode(val);
      assert Adds(e, prevNid) == UpTo(lo, hi);
      var ok;
      ok, conns := EmitAll(connList, conns, maxConns, lo, hi, out, tail);
      if !ok {
        return -28;
      }
      out := out + UpTo(lo, hi);
      prevNid := val;
    }
    DoneScanning(src, connLen, prevNid, nullCount, out, cap);
    r := conns;
  }

  lemma OneNode(n: nat)
    ensures UpTo(n, n + 1) == [n]
  {
  }

  lemma DoneScanning(src: Source, len: nat, prev: nat, nulls: nat, out: seq<nat>, cap: Option<nat>)
    requires cap.Some? ==> |out| <= cap.value
    ensures Scan(src, len, len, prev, nulls, out, cap) == Count(|out|, out)
  {
  }

  lemma FailedRead(src: Source, len: nat, i: nat, prev: nat, nulls: nat, out: seq<nat>, cap: Option<nat>)
    requires i < len && src(i).None? && (cap.Some? ==> |out| <= cap.value)
    ensures Scan(src, len, i, prev, nulls, out, cap) == IoError(out)
  {
  }

  /** Inside a word, `word` is what is left of it at element i. */
  ghost predicate InWord(read: nat -> Option<u32>, per: nat, base: nat, i: nat, word: nat)
    requires per > 0 && base > 0
  {
    i % per != 0 ==>
      var w := read(i - i % per);
      w.Some? && word == Shifted(w.value, base, i % per)
  }

  lemma WordStep(read: nat -> Option<u32>, per: nat, base: nat, half: nat, i: nat, word: nat)
    requires per > 0 && base > 0 && half > 0 && InWord(read, per, base, i, word)
    requires i % per == 0 ==> read(i) == Some(word)
    ensures FromWords(read, per, base, half)(i) == Some(ElemOf(word, half))
    ensures InWord(read, per, base, i + 1, ShiftOut(word, base))
  {
    NextInWord(i, per);
  }

  lemma NextInWord(i: nat, per: nat)
    requires per > 0
    ensures (i + 1) % per != 0 ==> (i + 1) % per == i % per + 1 && i + 1 - (i + 1) % per == i - i % per
  {
    var q, r := i / per, i % per;
    assert i == per * q + r;
    if r + 1 < per {
      DivisionIsUnique(i + 1, per, q, r + 1);
    } else {
      assert i + 1 == per * (q + 1) by {
        assert per * (q + 1) == per * q + per;
      }
      DivisionIsUnique(i + 1, per, q + 1, 0);
    }
  }
}
