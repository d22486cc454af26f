/** SCP messages to and from the DSP: the packed header, and a GET that polls the
    response queue for its reply among words that are not for it. */
module Scp {
  import opened Words

  datatype Header = Header(target: nat, source: nat, get: nat, req: nat, device: nat, resp: nat, error: nat, size: nat)

  /** The values that fit the header's fields. */
  predicate Fits(h: Header) {
    h.target < 0x100 && h.source < 0x100 && h.get < 2 && h.req < 0x80 && h.device < 2 && h.resp < 2 && h.error < 2
    && h.size < 0x20
  }

  /** make_scp_header: every field is masked to its width and put above the next one. */
  function MakeHeader(h: Header): u32 {
    Word(h.target % 0x100, h.source % 0x100, RequestByte(h), FlagsByte(h))
  }

  function RequestByte(h: Header): u8 {
    h.req % 0x80 * 2 + h.get % 2
  }

  function FlagsByte(h: Header): u8 {
    h.size % 0x20 * 8 + h.error % 2 * 4 + h.resp % 2 * 2 + h.device % 2
  }

  /** extract_scp_header. */
  function ExtractHeader(x: u32): (h: Header)
    ensures Fits(h)
  {
    Header(x % 0x100, x / 0x100 % 0x100, x / 0x1_0000 % 2, x / 0x2_0000 % 0x80,
           x / 0x100_0000 % 2, x / 0x200_0000 % 2, x / 0x400_0000 % 2, x / 0x800_0000 % 0x20)
  }

  // ---- words as bytes ---------------------------------------------------------------

  /** A word from its four bytes, lowest first. */
  function Word(b0: u8, b1: u8, b2: u8, b3: u8): u32 {
    b3 * 0x100_0000 + b2 * 0x1_0000 + b1 * 0x100 + b0
  }

  function Byte0(x: u32): u8 {
    x % 0x100
  }

  function Byte1(x: u32): u8 {
    x / 0x100 % 0x100
  }

  function Byte2(x: u32): u8 {
    x / 0x1_0000 % 0x100
  }

  function Byte3(x: u32): u8 {
    x / 0x100_0000
  }

  lemma BytesOfWord(b0: u8, b1: u8, b2: u8, b3: u8)
    ensures var x := Word(b0, b1, b2, b3);
            Byte0(x) == b0 && Byte1(x) == b1 && Byte2(x) == b2 && Byte3(x) == b3
  {
    var x := Word(b0, b1, b2, b3);
    assert x / 0x100 == b3 * 0x1_0000 + b2 * 0x100 + b1;
    assert x / 0x1_0000 == b3 * 0x100 + b2;
  }

  lemma WordOfBytes(x: u32)
    ensures Word(Byte0(x), Byte1(x), Byte2(x), Byte3(x)) == x
  {
    assert x / 0x1_0000 == x / 0x100 / 0x100;
    assert x / 0x100_0000 == x / 0x1_0000 / 0x100;
  }

  /** The header fields that four bytes hold. */
  function FromBytes(b0: u8, b1: u8, b2: u8, b3: u8): Header {
    Header(b0, b1, b2 % 2, b2 / 2, b3 % 2, b3 / 2 % 2, b3 / 4 % 2, b3 / 8)
  }

  lemma RequestFields(x: u32)
    ensures x / 0x1_0000 % 2 == Byte2(x) % 2 && x / 0x2_0000 % 0x80 == Byte2(x) / 2
  {
    assert x / 0x2_0000 == x / 0x1_0000 / 2;
  }

  lemma FlagFields(x: u32)
    ensures x / 0x200_0000 % 2 == Byte3(x) / 2 % 2 && x / 0x400_0000 % 2 == Byte3(x) / 4 % 2
    ensures x / 0x800_0000 % 0x20 == Byte3(x) / 8
  {
    assert x / 0x200_0000 == x / 0x100_0000 / 2;
    assert x / 0x400_0000 == x / 0x100_0000 / 4;
    assert x / 0x800_0000 == x / 0x100_0000 / 8;
  }

  /** The shifts and masks of extract_scp_header, byte by byte. */
  lemma ExtractIsFromBytes(x: u32)
    ensures ExtractHeader(x) == FromBytes(Byte0(x), Byte1(x), Byte2(x), Byte3(x))
  {
    RequestFields(x);
    FlagFields(x);
  }

  lemma BytesKeepFields(h: Header)
    requires Fits(h)
    ensures FromBytes(h.target % 0x100, h.source % 0x100, RequestByte(h), FlagsByte(h)) == h
  {
    FlagBits(h.size, h.error, h.resp, h.device);
    assert FlagsByte(h) == h.size * 8 + h.error * 4 + h.resp * 2 + h.device;
    assert RequestByte(h) == h.req * 2 + h.get;
  }

  lemma FlagBits(size: nat, error: nat, resp: nat, device: nat)
    requires size < 0x20 && error < 2 && resp < 2 && device < 2
    ensures var b := size * 8 + error * 4 + resp * 2 + device;
            b % 2 == device && b / 2 % 2 == resp && b / 4 % 2 == error && b / 8 == size
  {
  }

  lemma FieldsKeepBytes(b0: u8, b1: u8, b2: u8, b3: u8)
    ensures var h := FromBytes(b0, b1, b2, b3);
            h.target % 0x100 == b0 && h.source % 0x100 == b1 && RequestByte(h) == b2 && FlagsByte(h) == b3
  {
    hide RequestByte, FlagsByte;
    var h := FromBytes(b0, b1, b2, b3);
    RequestKeepsByte(h, b2);
    FlagsKeepByte(h, b3);
  }

  lemma RequestKeepsByte(h: Header, b: u8)
    requires h.req == b / 2 && h.get == b % 2
    ensures RequestByte(h) == b
  {
  }

  lemma FlagsKeepByte(h: Header, b: u8)
    requires h.size == b / 8 && h.error == b / 4 % 2 && h.resp == b / 2 % 2 && h.device == b % 2
    ensures FlagsByte(h) == b
  {
    FlagsAddUp(b);
    assert h.size % 0x20 == h.size && h.error % 2 == h.error && h.resp % 2 == h.resp && h.device % 2 == h.device;
  }

  lemma FlagsAddUp(b: u8)
    ensures b / 8 * 8 + b / 4 % 2 * 4 + b / 2 % 2 * 2 + b % 2 == b && b / 8 < 0x20
  {
    assert b / 2 == b / 4 * 2 + b / 2 % 2 && b / 4 == b / 8 * 2 + b / 4 % 2;
  }

  /** The layout of a header word, field by field (struct scp_hdr as a little-endian word). */
  lemma HeaderLayout(h: Header)
    requires Fits(h)
    ensures MakeHeader(h) == h.target + h.source * 0x100 + h.get * 0x1_0000 + h.req * 0x2_0000
                             + h.device * 0x100_0000 + h.resp * 0x200_0000 + h.error * 0x400_0000 + h.size * 0x800_0000
  {
    RequestLayout(h);
    FlagsLayout(h);
    assert h.target % 0x100 == h.target && h.source % 0x100 == h.source;
    hide RequestByte, FlagsByte, Fits;
  }

  lemma RequestLayout(h: Header)
    requires h.req < 0x80 && h.get < 2
    ensures RequestByte(h) == h.req * 2 + h.get
  {
  }

  lemma FlagsLayout(h: Header)
    requires h.size < 0x20 && h.error < 2 && h.resp < 2 && h.device < 2
    ensures FlagsByte(h) == h.size * 8 + h.error * 4 + h.resp * 2 + h.device
  {
  }

  /** Headers round-trip in both directions: packing loses no field, and every word is
      the packing of its fields. */
  lemma HeaderRoundTrip(h: Header)
    requires Fits(h)
    ensures ExtractHeader(MakeHeader(h)) == h
  {
    hide ExtractHeader, Word, Byte0, Byte1, Byte2, Byte3, FromBytes, RequestByte, FlagsByte;
    ExtractIsFromBytes(MakeHeader(h));
    BytesOfWord(h.target % 0x100, h.source % 0x100, RequestByte(h), FlagsByte(h));
    BytesKeepFields(h);
  }

  lemma WordRoundTrip(x: u32)
    ensures MakeHeader(ExtractHeader(x)) == x
  {
    hide ExtractHeader, Word, Byte0, Byte1, Byte2, Byte3, FromBytes, RequestByte, FlagsByte;
    ExtractIsFromBytes(x);
    FieldsKeepBytes(Byte0(x), Byte1(x), Byte2(x), Byte3(x));
    WordOfBytes(x);
  }

  // ---- waiting for the reply ------------------------------------------------------

  /** dspio_send_scp_message: source and target swapped, request and get flag kept, the
      top byte dropped. */
  function WaitHeader(sent: u32): u32 {
    (sent / 0x1_0000 * 0x1_0000 + Byte0(sent) * 0x100 + Byte1(sent)) % 0x100_0000
  }

  /** dspio_get_response_data looks at the low 24 bits only. */
  predicate Matches(word: u32, wait: u32) {
    word % 0x100_0000 == wait
  }

  lemma LowBytes(x: u32)
    ensures x % 0x100_0000 == Word(Byte0(x), Byte1(x), Byte2(x), 0)
  {
    WordOfBytes(x);
  }

  lemma SwappedBytes(sent: u32)
    ensures WaitHeader(sent) == Word(Byte1(sent), Byte0(sent), Byte2(sent), 0)
  {
    DropTopByte(sent / 0x1_0000, Byte0(sent) * 0x100 + Byte1(sent));
  }

  lemma DropTopByte(top: nat, low: nat)
    requires low < 0x1_0000
    ensures (top * 0x1_0000 + low) % 0x100_0000 == top % 0x100 * 0x1_0000 + low
  {
    assert top == top / 0x100 * 0x100 + top % 0x100;
  }

  /** A word passes for the reply to a request exactly when, read as a header, it goes
      back from the request's target to its source with the same request and get flag. */
  lemma MatchesIff(word: u32, sent: u32)
    ensures Matches(word, WaitHeader(sent)) <==>
            var w, s := ExtractHeader(word), ExtractHeader(sent);
            w.target == s.source && w.source == s.target && w.get == s.get && w.req == s.req
  {
    LowBytes(word);
    SwappedBytes(sent);
    ExtractIsFromBytes(word);
    ExtractIsFromBytes(sent);
    hide ExtractHeader, Word, Byte0, Byte1, Byte2, Byte3, WaitHeader;
    BytesOfWord(Byte0(word), Byte1(word), Byte2(word), 0);
    BytesOfWord(Byte1(sent), Byte0(sent), Byte2(sent), 0);
    SameByte(Byte2(word), Byte2(sent));
  }

  lemma SameByte(b: u8, c: u8)
    ensures b == c <==> b % 2 == c % 2 && b / 2 == c / 2
  {
    assert b == b / 2 * 2 + b % 2 && c == c / 2 * 2 + c % 2;
  }

  const MAX_REPLY_WORDS: nat := 4        // spec->scp_resp_data, and the bytes copied out of it

  datatype Reply = Ok(words: seq<u32>) | EIO | EINVAL

  /** The first word within `patience` polls that matches, and what follows it. */
  datatype Found = Found(hdr: u32, rest: seq<u32>) | NotFound(rest: seq<u32>)

  function Scan(q: seq<u32>, wait: u32, patience: nat): Found
    decreases patience
  {
    if patience == 0 || q == [] then NotFound(q)
    else if Matches(q[0], wait) then Found(q[0], q[1..])
    else Scan(q[1..], wait, patience - 1)
  }

  /** dspio_scp after the reply is in: the reply flag must be set, the error flag clear, the
      caller's buffer long enough, and as many words there as the header announces. */
  function Accept(hdr: u32, data: seq<u32>, replyLen: nat): Reply {
    var h := ExtractHeader(hdr);
    if h.resp == 0 || h.error == 1 then EIO
    else if replyLen < 4 * |data| then EINVAL
    else if |data| != h.size then EINVAL
    else Ok(data)
  }

  function Get(q: seq<u32>, wait: u32, patience: nat, replyLen: nat): (Reply, seq<u32>) {
    match Scan(q, wait, patience)
    case NotFound(rest) => (EIO, rest)
    case Found(hdr, rest) =>
      var n := Min(hdr / 0x800_0000, |rest|);
      (Accept(hdr, rest[..n], replyLen), rest[n..])
  }

  /** A GET whose queue holds any run of other words before its reply skips exactly those
      and consumes exactly the reply's header and data words. A reply without the error
      flag hands over its words, in order, if and only if the caller's buffer has room. */
  lemma {:induction false} GetReturnsReply(
    junk: seq<u32>, hdr: u32, data: seq<u32>, rest: seq<u32>, wait: u32, patience: nat, replyLen: nat)
    requires forall i :: 0 <= i < |junk| ==> !Matches(junk[i], wait)
    requires Matches(hdr, wait) && |data| == hdr / 0x800_0000 && patience > |junk|
    ensures var (reply, left) := Get(junk + [hdr] + data + rest, wait, patience, replyLen);
            var h := ExtractHeader(hdr);
            && left == rest
            && reply == (if h.resp == 0 || h.error == 1 then EIO else if 4 * |data| > replyLen then EINVAL else Ok(data))
  {
    hide Scan, Matches, Accept, ExtractHeader;
    var q := junk + [hdr] + data + rest;
    if junk == [] {
      assert q == [hdr] + (data + rest);
      ReplyInFront(hdr, data, rest, wait, patience, replyLen);
    } else {
      assert q[0] == junk[0] && q[1..] == junk[1..] + [hdr] + data + rest;
      SkipWord(q, wait, patience, replyLen);
      GetReturnsReply(junk[1..], hdr, data, rest, wait, patience - 1, replyLen);
    }
  }

  lemma SkipWord(q: seq<u32>, wait: u32, patience: nat, replyLen: nat)
    requires q != [] && !Matches(q[0], wait) && patience > 0
    ensures Get(q, wait, patience, replyLen) == Get(q[1..], wait, patience - 1, replyLen)
  {
  }

  lemma ReplyInFront(hdr: u32, data: seq<u32>, rest: seq<u32>, wait: u32, patience: nat, replyLen: nat)
    requires Matches(hdr, wait) && |data| == hdr / 0x800_0000 && patience > 0
    ensures var (reply, left) := Get([hdr] + (data + rest), wait, patience, replyLen);
            var h := ExtractHeader(hdr);
            && left == rest
            && reply == (if h.resp == 0 || h.error == 1 then EIO else if 4 * |data| > replyLen then EINVAL else Ok(data))
  {
    var q := [hdr] + (data + rest);
    assert q[0] == hdr && q[1..] == data + rest;
    assert (data + rest)[..|data|] == data && (data + rest)[|data|..] == rest;
    assert ExtractHeader(hdr).size == |data|;
  }

  /** Without a reply within its patience a GET fails, having consumed every word it saw. */
  lemma {:induction false} NoReplyFails(q: seq<u32>, wait: u32, patience: nat, replyLen: nat)
    requires forall i :: 0 <= i < Min(patience, |q|) ==> !Matches(q[i], wait)
    ensures Get(q, wait, patience, replyLen) == (EIO, q[Min(patience, |q|)..])
    decreases patience
  {
    hide Matches, Accept;
    if patience > 0 && q != [] {
      forall i | 0 <= i < Min(patience - 1, |q[1..]|)
        ensures !Matches(q[1..][i], wait)
      {
        assert q[1..][i] == q[i + 1];
      }
      NoReplyFails(q[1..], wait, patience - 1, replyLen);
      assert q[1..][Min(patience - 1, |q[1..]|)..] == q[Min(patience, |q|)..];
    }
  }

  /** A reply that breaks off early is refused, not padded. */
  lemma {:induction false} TruncatedReplyRefused(
    junk: seq<u32>, hdr: u32, data: seq<u32>, wait: u32, patience: nat, replyLen: nat)
    requires forall i :: 0 <= i < |junk| ==> !Matches(junk[i], wait)
    requires Matches(hdr, wait) && |data| < hdr / 0x800_0000 && patience > |junk|
    ensures var (reply, left) := Get(junk + [hdr] + data, wait, patience, replyLen);
            var h := ExtractHeader(hdr);
            left == [] && reply == (if h.resp == 0 || h.error == 1 then EIO else EINVAL)
  {
    var q := junk + [hdr] + data;
    if junk == [] {
      assert q[0] == hdr && q[1..] == data;
    } else {
      assert q[0] == junk[0] && q[1..] == junk[1..] + [hdr] + data;
      TruncatedReplyRefused(junk[1..], hdr, data, wait, patience - 1, replyLen);
    }
  }

  // ---- the driver -------------------------------------------------------------------

  /** The SCP fields of struct ca0132_spec and the DSP's response queue. */
  class Mailbox {
    var queue: seq<u32>
    var waitScp: bool
    var waitScpHeader: u32
    var waitNumData: nat
    var scpRespHeader: u32
    var scpRespCount: nat
    const scpRespData: array<u32>

    ghost predicate Valid() {
      scpRespData.Length == MAX_REPLY_WORDS
    }

    /** Replies to the pending request carry no more words than the driver keeps. */
    ghost predicate SmallReplies(wait: u32)
      reads this
    {
      forall i :: 0 <= i < |queue| && Matches(queue[i], wait) ==> queue[i] / 0x800_0000 <= MAX_REPLY_WORDS
    }

    constructor (q: seq<u32>)
      ensures Valid() && queue == q && fresh(scpRespData)
    {
      queue := q;
      waitScp, waitScpHeader, waitNumData, scpRespHeader, scpRespCount := false, 0, 0, 0, 0;
      scpRespData := new u32[MAX_REPLY_WORDS](_ => 0);
    }

    /** dspio_read. */
    method DspioRead() returns (ok: bool, data: u32)
      modifies this`queue
      ensures ok <==> old(queue) != []
      ensures ok ==> old(queue) == [data] + queue
      ensures !ok ==> queue == []
    {
      if queue == [] {
        return false, 0;
      }
      ok, data, queue := true, queue[0], queue[1..];
    }

    /** dspio_read_multiple into scp_resp_data: `size` words as far as they come, of which
        those past the first `sizeCount` are read and dropped. */
    method DspioReadMultiple(size: nat, sizeCount: nat) returns (count: nat)
      requires Valid() && Min(size, sizeCount) <= MAX_REPLY_WORDS
      modifies this`queue, scpRespData
      ensures count == Min(Min(size, sizeCount), |old(queue)|)
      ensures scpRespData[..count] == old(queue)[..count]
      ensures queue == old(queue)[Min(size, |old(queue)|)..]
    {
      count := 0;
      var ok := true;
      while count < size && count < sizeCount
        invariant count <= Min(size, sizeCount) && count <= |old(queue)| && ok
        invariant scpRespData[..count] == old(queue)[..count] && queue == old(queue)[count..]
      {
        var w;
        ok, w := DspioRead();
        if !ok {
          return;
        }
        scpRespData[count] := w;
        count := count + 1;
      }
      var skipCount := count;
      while skipCount < size
        invariant count <= skipCount <= size && skipCount <= |old(queue)|
        invariant scpRespData[..count] == old(queue)[..count] && queue == old(queue)[skipCount..]
      {
        var dummy;
        ok, dummy := DspioRead();
        if !ok {
          return;
        }
        skipCount := skipCount + 1;
      }
    }

    /** dspio_get_response_data: consumes one word, and if it is the awaited header also
        the data words behind it. */
    method GetResponseData() returns (ok: bool)
      requires Valid() && SmallReplies(waitScpHeader) && waitNumData >= MAX_REPLY_WORDS
      modifies this`queue, this`scpRespHeader, this`scpRespCount, scpRespData
      ensures ok <==> old(queue) != [] && Matches(old(queue)[0], waitScpHeader)
      ensures !ok ==> queue == (if old(queue) == [] then [] else old(queue)[1..])
      ensures ok ==> var n := Min(scpRespHeader / 0x800_0000, |old(queue)| - 1);
                     && scpRespHeader == old(queue)[0] && scpRespCount == n <= MAX_REPLY_WORDS
                     && scpRespData[..n] == old(queue)[1..][..n] && queue == old(queue)[1..][n..]
    {
      var data;
      ghost var q := queue;
      ok, data := DspioRead();
      if !ok {
        return;
      }
      assert queue == q[1..] && data == q[0];
      if data % 0x100_0000 == waitScpHeader {
        scpRespHeader := data;
        assert Matches(q[0], waitScpHeader);
        var size := data / 0x800_0000;
        assert size <= MAX_REPLY_WORDS;
        hide Matches;
        scpRespCount := DspioReadMultiple(size, waitNumData);
      } else {
        ok := false;
      }
    }

    /** Waiting for the reply to a request that has gone out. */
    method AwaitReply(patience: nat, ghost replyLen: nat) returns (got: bool)
      requires Valid() && SmallReplies(waitScpHeader) && waitNumData == 16
      modifies this`queue, this`scpRespHeader, this`scpRespCount, scpRespData
      ensures got ==> scpRespCount <= MAX_REPLY_WORDS
      ensures Get(old(queue), waitScpHeader, patience, replyLen)
           == (if got then Accept(scpRespHeader, scpRespData[..scpRespCount], replyLen) else EIO, queue)
    {
      hide Matches, Accept, ExtractHeader;
      var polls := 0;
      while polls < patience
        invariant polls <= patience && SmallReplies(waitScpHeader)
        invariant Get(old(queue), waitScpHeader, patience, replyLen) == Get(queue, waitScpHeader, patience - polls, replyLen)
      {
        got := GetResponseData();
        if got {
          return;
        }
        polls := polls + 1;
      }
      got := false;
    }

    /** What dspio_scp does with the reply. */
    method HandReply(replyLen: nat) returns (reply: Reply)
      requires Valid() && scpRespCount <= MAX_REPLY_WORDS
      ensures reply == Accept(scpRespHeader, scpRespData[..scpRespCount], replyLen)
    {
      var w := ExtractHeader(scpRespHeader);
      if w.resp == 1 && w.error == 0 {
        if replyLen < 4 * scpRespCount {
          reply := EINVAL;
        } else if scpRespCount != w.size {
          reply := EINVAL;
        } else {
          reply := Ok(scpRespData[..scpRespCount]);
        }
      } else {
        reply := EIO;
      }
    }

    /** dspio_scp for a GET whose request has gone out: poll until the reply turns up or
        patience runs out, then hand its words to the caller. */
    method DspioScpGet(sent: u32, patience: nat, replyLen: nat) returns (reply: Reply)
      requires Valid() && SmallReplies(WaitHeader(sent))
      modifies this, scpRespData
      ensures (reply, queue) == Get(old(queue), WaitHeader(sent), patience, replyLen)
      ensures !waitScp
    {
      var h := ExtractHeader(sent);
      waitScpHeader := (sent / 0x1_0000 * 0x1_0000 + h.target * 0x100 + h.source) % 0x100_0000;
      assert waitScpHeader == WaitHeader(sent);
      hide Get, Accept, ExtractHeader, WaitHeader, Matches;
      waitNumData := 16;
      waitScp := true;
      var got := AwaitReply(patience, replyLen);
      waitScp := false;
      if !got {
        return EIO;
      }
      reply := HandReply(replyLen);
    }
  }
}
