/** The ring convention shared by the CORB, the RIRB and the unsolicited-event
    queue: a producer index names the slot written last, a consumer index the
    slot consumed last, and both step to the next slot modulo the size. */
module Rings {

  function Next(n: nat, i: nat): (r: nat)
    requires i < n
    ensures r == (if i + 1 == n then 0 else i + 1)
  {
    NextIsSmall(n, i);
    (i + 1) % n
  }

  lemma NextIsSmall(n: nat, i: nat)
    requires i < n
    ensures (i + 1) % n == (if i + 1 == n then 0 else i + 1)
  {
    if i + 1 < n {
      assert (i + 1) == 0 * n + (i + 1);
    }
  }

  /** How many slots the producer is ahead of the consumer. */
  function Count(n: nat, rp: nat, wp: nat): nat
    requires rp < n && wp < n
  {
    if rp <= wp then wp - rp else wp + n - rp
  }

  /** The slot holding the k-th unread entry. */
  function Slot(n: nat, rp: nat, k: nat): (i: nat)
    requires rp < n && k < n
    ensures i < n
  {
    if rp + 1 + k < n then rp + 1 + k else rp + 1 + k - n
  }

  /** The unread entries, oldest first. */
  function Pending<T>(buf: seq<T>, rp: nat, wp: nat): (s: seq<T>)
    requires rp < |buf| && wp < |buf|
    ensures |s| == Count(|buf|, rp, wp)
  {
    seq(Count(|buf|, rp, wp), k requires 0 <= k < Count(|buf|, rp, wp) => buf[Slot(|buf|, rp, k)])
  }

  /** Writing the next slot and then moving the producer index appends one entry and
      disturbs no other, provided the producer does not run into the consumer. */
  lemma PushAppends<T>(buf: seq<T>, rp: nat, wp: nat, x: T)
    requires rp < |buf| && wp < |buf| && Next(|buf|, wp) != rp
    ensures Pending(buf[Next(|buf|, wp) := x], rp, Next(|buf|, wp)) == Pending(buf, rp, wp) + [x]
  {
  }

  /** Moving the consumer index hands out exactly the oldest entry. */
  lemma PopTakesOldest<T>(buf: seq<T>, rp: nat, wp: nat)
    requires rp < |buf| && wp < |buf| && rp != wp
    ensures Pending(buf, rp, wp) == [buf[Next(|buf|, rp)]] + Pending(buf, Next(|buf|, rp), wp)
  {
  }

  /** A producer that steps onto the consumer makes the whole ring look empty. */
  lemma PushOntoConsumerEmpties<T>(buf: seq<T>, rp: nat, wp: nat, x: T)
    requires rp < |buf| && wp < |buf| && Next(|buf|, wp) == rp
    ensures Pending(buf, rp, wp) != [] || |buf| == 1
    ensures Pending(buf[Next(|buf|, wp) := x], rp, Next(|buf|, wp)) == []
  {
  }
}
