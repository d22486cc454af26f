/** The chip I/O functions of ca0132.c in place: the codec object holds the driver's
    copy of the address register, and every function is tied to its value-level
    counterpart in ChipIo. */
module ChipIoDriver {
  import opened Words
  import opened ChipIo

  class Codec {
    // driver
    var currChipAddx: u32
    // hardware and link
    var chip: Chip
    var wire: seq<Verb>
    var sends: nat
    const fates: (nat, Verb) -> Fate

    ghost function S(): State
      reads this
    {
      State(currChipAddx, chip, wire, sends)
    }

    /** ca0132_init marks the copy of the address register invalid. */
    constructor (c: Chip, o: (nat, Verb) -> Fate)
      ensures S() == State(INVALID, c, [], 0) && CacheOk(S()) && fates == o
    {
      currChipAddx, chip, wire, sends := INVALID, c, [], 0;
      fates := o;
    }

    /** One snd_hda_codec_read of a vendor verb; the chip executes it iff it replies OK. */
    method CodecRead(v: Verb, accepted: bool)
      modifies this`chip, this`wire
      ensures wire == old(wire) + [v]
      ensures chip == if accepted then Execute(old(chip), v) else old(chip)
    {
      wire := wire + [v];
      if accepted {
        chip := Execute(chip, v);
      }
    }

    /** chipio_send and dspio_send: repeat the verb until it is accepted or time is up. */
    method SendVerb(v: Verb) returns (ok: bool)
      modifies this`chip, this`wire, this`sends
      ensures (S(), ok) == Send(old(S()), v, fates)
    {
      var f := fates(sends, v);
      sends := sends + 1;
      var tries := 0;
      while true
        invariant tries <= f.busy
        invariant chip == old(chip) && wire == old(wire) + Repeat(v, tries) && sends == old(sends) + 1
        decreases f.busy - tries
      {
        CodecRead(v, tries == f.busy && f.accepted);
        assert Repeat(v, tries) + [v] == Repeat(v, tries + 1);
        assert wire == old(wire) + Repeat(v, tries + 1);
        if tries == f.busy {
          return f.accepted;
        }
        tries := tries + 1;
      }
    }

    method WriteChipAddress(chipAddx: u32) returns (ok: bool)
      modifies this
      ensures (S(), ok) == WriteAddress(old(S()), chipAddx, fates)
    {
      if currChipAddx == chipAddx {
        return true;
      }
      ok := SendVerb(AddressLow(chipAddx % 0x1_0000));
      if ok {
        ok := SendVerb(AddressHigh(chipAddx / 0x1_0000));
      }
      currChipAddx := if ok then chipAddx else INVALID;
    }

    method WriteChipData(data: u32) returns (ok: bool)
      modifies this
      ensures (S(), ok) == WriteData(old(S()), data, fates)
    {
      ok := SendVerb(DataLow(data % 0x1_0000));
      if ok {
        ok := SendVerb(DataHigh(data / 0x1_0000));
      }
      currChipAddx := if ok then Add32(currChipAddx, 4) else INVALID;
    }

    method WriteChipDataMultiple(data: seq<u32>) returns (ok: bool)
      modifies this
      ensures (S(), ok) == WriteDataMultiple(old(S()), data, fates)
    {
      ok := true;
      var i := 0;
      assert data[0..] == data;
      while i < |data| && ok
        invariant i <= |data|
        invariant ok ==> WriteDataMultiple(old(S()), data, fates) == WriteDataMultiple(S(), data[i..], fates)
        invariant !ok ==> WriteDataMultiple(old(S()), data, fates) == (S(), false)
      {
        assert data[i..][1..] == data[i + 1..];
        ok := WriteChipData(data[i]);
        i := i + 1;
      }
    }

    method ReadChipData() returns (ok: bool, data: u32)
      modifies this
      ensures (S(), ok, data) == ReadWord(old(S()), fates)
    {
      data := 0;
      ok := SendVerb(PostRead);
      if ok {
        ok := SendVerb(ChipStatus);
      }
      if ok {
        data := Load(chip.mem, chip.addr);
        CodecRead(ReadData, true);
      }
      currChipAddx := if ok then Add32(currChipAddx, 4) else INVALID;
    }

    /** chipio_write: on success exactly the requested word is stored, and on failure
        nothing is; either way the copy of the address register stays invalid or right. */
    method ChipioWrite(chipAddx: u32, data: u32) returns (ok: bool)
      requires CacheOk(S())
      modifies this
      ensures (S(), ok) == Perform(old(S()), DoWrite(chipAddx, data), fates)
      ensures AllAccepted(fates) ==> ok
      ensures HitIsTrue(old(S()), chipAddx) ==>
                CacheOk(S()) && chip.effects == old(chip.effects) + (if ok then [Write(chipAddx, data)] else [])
    {
      if AllAccepted(fates) {
        PerformSucceeds(S(), DoWrite(chipAddx, data), fates);
      }
      if HitIsTrue(S(), chipAddx) {
        PerformKeepsCache(S(), DoWrite(chipAddx, data), fates);
        WriteAllOrNothing(S(), chipAddx, data, fates);
      }
      ok := WriteChipAddress(chipAddx);
      if !ok {
        return;
      }
      ok := WriteChipData(data);
    }

    /** chipio_write_multiple: on success every word is stored at its own address. */
    method ChipioWriteMultiple(chipAddx: u32, data: seq<u32>) returns (ok: bool)
      requires CacheOk(S())
      modifies this
      ensures (S(), ok) == Perform(old(S()), DoWriteMultiple(chipAddx, data), fates)
      ensures AllAccepted(fates) ==> ok
      ensures HitIsTrue(old(S()), chipAddx) ==> CacheOk(S())
      ensures HitIsTrue(old(S()), chipAddx) && ok ==>
                && chip.effects == old(chip.effects) + Block(chipAddx, data)
                && chip.mem == StoreBlock(old(chip.mem), chipAddx, data)
    {
      if AllAccepted(fates) {
        PerformSucceeds(S(), DoWriteMultiple(chipAddx, data), fates);
      }
      if HitIsTrue(S(), chipAddx) {
        PerformKeepsCache(S(), DoWriteMultiple(chipAddx, data), fates);
        ghost var n := PerformLands(S(), DoWriteMultiple(chipAddx, data), fates);
      }
      AddressLands(S(), chipAddx, fates);
      ok := WriteChipAddress(chipAddx);
      if !ok {
        return;
      }
      if CacheOk(S()) && S().curr == S().chip.addr {
        ghost var m := BlockLands(S(), data, fates);
      }
      ok := WriteChipDataMultiple(data);
    }

    /** chipio_read: on success the result is the word stored at the address. */
    method ChipioRead(chipAddx: u32) returns (ok: bool, data: u32)
      requires CacheOk(S())
      modifies this
      ensures (S(), ok) == Perform(old(S()), DoRead(chipAddx), fates)
      ensures AllAccepted(fates) ==> ok
      ensures chip.mem == old(chip.mem)
      ensures HitIsTrue(old(S()), chipAddx) ==> CacheOk(S()) && (ok ==> data == Load(old(chip.mem), chipAddx))
    {
      if AllAccepted(fates) {
        PerformSucceeds(S(), DoRead(chipAddx), fates);
      }
      if HitIsTrue(S(), chipAddx) {
        PerformKeepsCache(S(), DoRead(chipAddx), fates);
        ReadReturnsMemory(S(), chipAddx, fates);
      }
      AddressLands(S(), chipAddx, fates);
      data := 0;
      ok := WriteChipAddress(chipAddx);
      if !ok {
        return;
      }
      ok, data := ReadChipData();
    }

    /** dspio_write. */
    method DspioWrite(scpData: u32) returns (ok: bool)
      modifies this`chip, this`wire, this`sends
      ensures (S(), ok) == ScpWord(old(S()), scpData, fates)
    {
      CodecRead(DspStatus, true);
      ok := SendVerb(ScpLow(scpData % 0x1_0000));
      if !ok {
        return;
      }
      ok := SendVerb(ScpHigh(scpData / 0x1_0000));
      if !ok {
        return;
      }
      ok := fates(sends, DspStatus).accepted;            // is the command queue full?
      CodecRead(DspStatus, true);
      sends := sends + 1;
    }

    /** dspio_write_multiple. */
    method DspioWriteMultiple(buffer: seq<u32>) returns (ok: bool)
      modifies this`chip, this`wire, this`sends
      ensures (S(), ok) == ScpWords(old(S()), buffer, fates)
      ensures AllAccepted(fates) ==> ok
    {
      if AllAccepted(fates) {
        WordsSucceed(S(), buffer, fates);
      }
      ok := true;
      var count := 0;
      assert buffer[0..] == buffer;
      while count < |buffer|
        invariant ok && count <= |buffer|
        invariant ScpWords(old(S()), buffer, fates) == ScpWords(S(), buffer[count..], fates)
      {
        assert buffer[count..][1..] == buffer[count + 1..];
        ok := DspioWrite(buffer[count]);
        if !ok {
          break;
        }
        count := count + 1;
      }
    }
  }

  lemma WriteAllOrNothing(s: State, a: u32, d: u32, o: (nat, Verb) -> Fate)
    requires CacheOk(s) && HitIsTrue(s, a)
    ensures var (r, ok) := Perform(s, DoWrite(a, d), o);
            r.chip.effects == s.chip.effects + (if ok then [Write(a, d)] else [])
  {
    AddressLands(s, a, o);
    var (r, ok) := WriteAddress(s, a, o);
    if ok {
      DataLands(r, d, o);
    }
  }
}
