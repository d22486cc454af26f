/** HDMI channel mapping: which ALSA channel each of the eight slots of an HDMI stream
    carries. A row of the allocation table (CEA-861-D, section 6.6) gives the speaker of
    each slot; the driver turns it into slot writes, reports the result as an ALSA channel
    map, and can program the slots from such a map. */
module ChannelMap {

  /** Speaker masks in the order of map_tables. */
  const MASKS: seq<nat> := [0x1, 0x4, 0x20, 0x80, 0x400, 0x2, 0x100, 0x200, 0x40, 0x8, 0x10, 0x2000, 0x8000, 0x800, 0x1000, 0x10000, 0x4000]

  /** The ALSA positions of map_tables: the values themselves are not part of this model,
      only that none is zero (a zero ends the table) and no two are equal. */
  ghost predicate Codes(maps: seq<nat>) {
    && |maps| == |MASKS|
    && (forall k :: 0 <= k < |maps| ==> maps[k] != 0)
    && forall j, k :: 0 <= j < k < |maps| ==> maps[j] != maps[k]
  }

  /** The speakers of one allocation, highest slot first; 0 where a slot is unused. */
  type Row = r: seq<nat> | |r| == 8 witness [0, 0, 0, 0, 0, 0, 0, 0]

  predicate Used(row: Row, slot: nat) {
    slot < 8 && row[7 - slot] != 0
  }

  /** Every speaker of the row is known, and none is named twice. */
  ghost predicate Distinct(row: Row) {
    && (forall s: nat :: Used(row, s) ==> row[7 - s] in MASKS)
    && forall s: nat, t: nat :: Used(row, s) && Used(row, t) && row[7 - s] == row[7 - t] ==> s == t
  }

  /** Used slots below `slot`. */
  function UsedBelow(row: Row, slot: nat): (n: nat)
    ensures n <= slot
  {
    if slot == 0 then 0 else UsedBelow(row, slot - 1) + if Used(row, slot - 1) then 1 else 0
  }

  function Channels(row: Row): nat {
    UsedBelow(row, 8)
  }

  lemma {:induction false} UsedBelowGrows(row: Row, s: nat, t: nat)
    requires s <= t
    ensures UsedBelow(row, s) <= UsedBelow(row, t) <= UsedBelow(row, s) + (t - s)
  {
    if s < t {
      UsedBelowGrows(row, s, t - 1);
    }
  }

  // ---- mappings -------------------------------------------------------------------------

  function Pack(channel: nat, slot: nat): nat {
    16 * channel + slot
  }

  function SlotOf(v: nat): nat {
    v % 16
  }

  function ChannelOf(v: nat): nat {
    v / 16 % 16
  }

  lemma PackParts(channel: nat, slot: nat)
    requires channel < 16 && slot < 16
    ensures SlotOf(Pack(channel, slot)) == slot && ChannelOf(Pack(channel, slot)) == channel
  {
  }

  /** `inv` says which of the eight entries of a mapping names each slot. */
  ghost predicate Permutes(m: seq<nat>, inv: seq<nat>) {
    && |m| == |inv| == 8
    && (forall i :: 0 <= i < 8 ==> SlotOf(m[i]) < 8 && inv[SlotOf(m[i])] == i)
    && forall s :: 0 <= s < 8 ==> inv[s] < 8 && SlotOf(m[inv[s]]) == s
  }

  /** A mapping serves a row when it names every slot once and puts channel i of the stream
      on a used slot, for each of the row's channels. */
  ghost predicate Serves(row: Row, m: seq<nat>, inv: seq<nat>) {
    && Permutes(m, inv)
    && forall i: nat :: i < 8 ==>
         && (Used(row, SlotOf(m[i])) <==> i < Channels(row))
         && (i < Channels(row) ==> ChannelOf(m[i]) == i)
  }

  /** Its other entries mark their slots as carrying nothing. */
  predicate RestMarked(row: Row, m: seq<nat>)
    requires |m| == 8
  {
    forall i: nat :: Channels(row) <= i < 8 ==> ChannelOf(m[i]) == 15
  }

  /** Where the fill loop puts a slot: the used ones in order, then the unused ones. */
  function Place(row: Row, slot: nat): nat {
    if Used(row, slot) then UsedBelow(row, slot) else Channels(row) + (slot - UsedBelow(row, slot))
  }

  function Entry(row: Row, slot: nat): nat {
    Pack(if Used(row, slot) then Place(row, slot) else 15, slot)
  }

  /** The fill loop's result: channel i sits on the i-th used slot. */
  ghost predicate InOrder(row: Row, m: seq<nat>) {
    |m| == 8 && forall s: nat :: s < 8 ==> Place(row, s) < 8 && m[Place(row, s)] == Entry(row, s)
  }

  lemma PlaceBounds(row: Row, s: nat)
    requires s < 8
    ensures Used(row, s) ==> Place(row, s) < Channels(row)
    ensures !Used(row, s) ==> Channels(row) <= Place(row, s) < 8
    ensures Channels(row) <= 8
  {
    UsedBelowGrows(row, s + 1, 8);
  }

  /** The i-th place is taken by some slot. */
  lemma {:induction false} SlotAt(row: Row, i: nat, n: nat) returns (s: nat)
    requires n <= 8 && (i < UsedBelow(row, n) || Channels(row) <= i < Channels(row) + (n - UsedBelow(row, n)))
    ensures s < n && Place(row, s) == i
  {
    if (if Used(row, n - 1) then i == UsedBelow(row, n - 1) else i == Channels(row) + (n - 1 - UsedBelow(row, n - 1))) {
      s := n - 1;
    } else {
      UsedBelowGrows(row, n, 8);
      s := SlotAt(row, i, n - 1);
    }
  }

  lemma PlacesDiffer(row: Row, s: nat, t: nat)
    requires s < t < 8
    ensures Place(row, s) != Place(row, t)
  {
    PlaceBounds(row, s);
    PlaceBounds(row, t);
    UsedBelowGrows(row, s + 1, t);
  }

  /** A mapping filled in order names every slot exactly once, and fits the row. */
  lemma InOrderFits(row: Row, m: seq<nat>) returns (inv: seq<nat>)
    requires InOrder(row, m)
    ensures Serves(row, m, inv) && RestMarked(row, m)
  {
    inv := seq(8, (s: nat) => Place(row, s));
    forall s: nat | s < 8 ensures inv[s] < 8 && SlotOf(m[inv[s]]) == s {
      EntryParts(row, s);
    }
    forall i: nat | i < 8
      ensures SlotOf(m[i]) < 8 && inv[SlotOf(m[i])] == i
      ensures Used(row, SlotOf(m[i])) <==> i < Channels(row)
      ensures ChannelOf(m[i]) == if i < Channels(row) then i else 15
    {
      UsedBelowGrows(row, 0, 8);
      var s := SlotAt(row, i, 8);
      EntryParts(row, s);
      PlaceBounds(row, s);
    }
  }

  lemma EntryParts(row: Row, s: nat)
    requires s < 8
    ensures SlotOf(Entry(row, s)) == s
    ensures ChannelOf(Entry(row, s)) == if Used(row, s) then Place(row, s) else 15
  {
    PlaceBounds(row, s);
    PackParts(if Used(row, s) then Place(row, s) else 15, s);
  }

  // ---- programming the slots ----------------------------------------------------------------

  /** The channel every slot carries after the mapping's entries k.. have been written. */
  function Written(m: seq<nat>, k: nat, pins: seq<nat>): (r: seq<nat>)
    requires k <= |m| && |pins| == 8 && forall i :: 0 <= i < |m| ==> SlotOf(m[i]) < 8
    ensures |r| == 8
    decreases |m| - k
  {
    if k == |m| then pins else Written(m, k + 1, pins[SlotOf(m[k]) := ChannelOf(m[k])])
  }

  /** What the row asks for, entry by entry: every slot gets the channel of its entry. */
  lemma {:induction false} WrittenSlots(m: seq<nat>, inv: seq<nat>, k: nat, pins: seq<nat>)
    requires Permutes(m, inv) && k <= 8 && |pins| == 8
    requires forall s :: 0 <= s < 8 && inv[s] < k ==> pins[s] == ChannelOf(m[inv[s]])
    ensures forall s :: 0 <= s < 8 ==> Written(m, k, pins)[s] == ChannelOf(m[inv[s]])
    decreases 8 - k
  {
    if k < 8 {
      WrittenSlots(m, inv, k + 1, pins[SlotOf(m[k]) := ChannelOf(m[k])]);
    }
  }

  // ---- channel maps ---------------------------------------------------------------------------

  /** snd_hdac_chmap_to_spk_mask, from table entry k on. */
  function ToMask(maps: seq<nat>, c: nat, k: nat): nat
    requires |maps| == |MASKS| && k <= |maps|
    decreases |maps| - k
  {
    if k == |maps| then 0 else if maps[k] == c then MASKS[k] else ToMask(maps, c, k + 1)
  }

  /** snd_hdac_spk_to_chmap, from table entry k on. */
  function ToCode(maps: seq<nat>, mask: nat, k: nat): nat
    requires |maps| == |MASKS| && k <= |maps|
    decreases |maps| - k
  {
    if k == |maps| then 0 else if MASKS[k] == mask then maps[k] else ToCode(maps, mask, k + 1)
  }

  /** The two lookups undo each other on every speaker; a code outside the table, such as
      the 0 that pads a channel map, names no speaker. */
  lemma {:induction false} LookupsInverse(maps: seq<nat>, mask: nat, k: nat)
    requires Codes(maps) && k <= |maps| && mask in MASKS[k..]
    ensures ToMask(maps, ToCode(maps, mask, k), k) == mask && ToCode(maps, mask, k) in maps[k..]
    decreases |maps| - k
  {
    if MASKS[k] == mask {
      assert maps[k..][0] == maps[k];
    } else {
      assert MASKS[k..][1..] == MASKS[k + 1..] && maps[k..][1..] == maps[k + 1..];
      assert mask in MASKS[k + 1..];
      LookupsInverse(maps, mask, k + 1);
    }
  }

  lemma {:induction false} ZeroNamesNothing(maps: seq<nat>, k: nat)
    requires Codes(maps) && k <= |maps|
    ensures ToMask(maps, 0, k) == 0
    decreases |maps| - k
  {
    if k < |maps| {
      ZeroNamesNothing(maps, k + 1);
    }
  }

  /** to_cea_slot's search from slot i on; 8 when there is none. */
  function FindSlot(row: Row, mask: nat, i: nat): (r: nat)
    requires i <= 8
    ensures r <= 8
    decreases 8 - i
  {
    if i == 8 || row[7 - i] == mask then i else FindSlot(row, mask, i + 1)
  }

  function ToSlot(maps: seq<nat>, row: Row, code: nat): (r: nat)
    requires |maps| == |MASKS|
    ensures r <= 8
  {
    var mask := ToMask(maps, code, 0);
    if mask == 0 then 8 else FindSlot(row, mask, 0)
  }

  /** from_cea_slot */
  function FromSlot(maps: seq<nat>, row: Row, slot: nat): nat
    requires |maps| == |MASKS|
  {
    if slot >= 8 then 0 else ToCode(maps, row[7 - slot], 0)
  }

  lemma {:induction false} FindsSlot(row: Row, s: nat, i: nat)
    requires i <= s && Used(row, s) && Distinct(row)
    ensures FindSlot(row, row[7 - s], i) == s
    decreases s - i
  {
    if i < s {
      assert row[7 - i] == row[7 - s] ==> Used(row, i);
      FindsSlot(row, s, i + 1);
    }
  }

  /** The position a used slot reports leads back to that slot. */
  lemma SlotRoundTrip(maps: seq<nat>, row: Row, s: nat)
    requires Codes(maps) && Distinct(row) && Used(row, s)
    ensures ToSlot(maps, row, FromSlot(maps, row, s)) == s
  {
    assert MASKS[0..] == MASKS;
    LookupsInverse(maps, row[7 - s], 0);
    FindsSlot(row, s, 0);
  }

  /** hdmi_setup_fake_chmap: the channel map reported for a mapping. */
  function Reported(maps: seq<nat>, row: Row, m: seq<nat>): (r: seq<nat>)
    requires |maps| == |MASKS| && |m| == 8
    ensures |r| == 8
  {
    seq(8, (i: nat) requires i < 8 => if i < Channels(row) then FromSlot(maps, row, SlotOf(m[i])) else 0)
  }

  /** The manual path's assignments, from channel k on. */
  function Assigned(maps: seq<nat>, row: Row, chs: nat, map_: seq<nat>, k: nat, a: seq<nat>): (r: seq<nat>)
    requires |maps| == |MASKS| && k <= chs <= |map_| && |a| == 8
    ensures |r| == 8
    decreases chs - k
  {
    if k == chs then a
    else
      var slot := ToSlot(maps, row, map_[k]);
      Assigned(maps, row, chs, map_, k + 1, if slot == 8 then a else a[slot := k])
  }

  const UNASSIGNED: seq<nat> := [15, 15, 15, 15, 15, 15, 15, 15]

  /** The assignments once channels below k have been looked up. */
  ghost predicate AssignedTo(row: Row, inv: seq<nat>, k: nat, a: seq<nat>)
    requires |inv| == 8
  {
    |a| == 8 && forall s: nat :: s < 8 ==> a[s] == if Used(row, s) && inv[s] < k then inv[s] else 15
  }

  /** One lookup of the manual path. */
  lemma AssignOne(maps: seq<nat>, row: Row, m: seq<nat>, inv: seq<nat>, k: nat, a: seq<nat>)
    requires Codes(maps) && Distinct(row) && Serves(row, m, inv) && k < 8 && AssignedTo(row, inv, k, a)
    ensures var slot := ToSlot(maps, row, Reported(maps, row, m)[k]);
            AssignedTo(row, inv, k + 1, if slot == 8 then a else a[slot := k])
  {
    if k < Channels(row) {
      SlotRoundTrip(maps, row, SlotOf(m[k]));
    } else {
      ZeroNamesNothing(maps, 0);
    }
    hide Codes, Distinct, ToSlot, FromSlot, Channels, Used, UsedBelow;
    forall s: nat | s < 8 && inv[s] == k ensures SlotOf(m[k]) == s {
    }
  }

  lemma {:induction false} AssignedSlots(maps: seq<nat>, row: Row, chs: nat, m: seq<nat>, inv: seq<nat>, k: nat, a: seq<nat>)
    requires Codes(maps) && Distinct(row) && Serves(row, m, inv) && k <= chs <= 8 && AssignedTo(row, inv, k, a)
    ensures AssignedTo(row, inv, chs, Assigned(maps, row, chs, Reported(maps, row, m), k, a))
    decreases chs - k
  {
    hide Distinct, ToSlot, Reported, Used, Channels;
    if k < chs {
      AssignOne(maps, row, m, inv, k, a);
      var slot := ToSlot(maps, row, Reported(maps, row, m)[k]);
      assert AssignedTo(row, inv, k + 1, if slot == 8 then a else a[slot := k]);
      AssignedSlots(maps, row, chs, m, inv, k + 1, if slot == 8 then a else a[slot := k]);
    }
  }

  /** The main result: a map reported for a mapping that serves its row, programmed back
      through the manual path with any channel count from the row's up, gives every slot
      the channel the mapping gives it if and only if the mapping marks its other slots. */
  lemma ReportedMapProgramsSameSlotsIff(maps: seq<nat>, row: Row, chs: nat, m: seq<nat>, inv: seq<nat>, pins: seq<nat>)
    requires Codes(maps) && Distinct(row) && Serves(row, m, inv) && Channels(row) <= chs <= 8 && |pins| == 8
    ensures Assigned(maps, row, chs, Reported(maps, row, m), 0, UNASSIGNED) == Written(m, 0, pins) <==> RestMarked(row, m)
  {
    var a, w := Assigned(maps, row, chs, Reported(maps, row, m), 0, UNASSIGNED), Written(m, 0, pins);
    AssignedSlots(maps, row, chs, m, inv, 0, UNASSIGNED);
    WrittenSlots(m, inv, 0, pins);
    hide Codes, Distinct, Assigned, Written, Reported, Used, Channels;
    forall s: nat | s < 8
      ensures Used(row, s) <==> inv[s] < Channels(row)
      ensures a[s] == if inv[s] < Channels(row) then inv[s] else 15
      ensures w[s] == ChannelOf(m[inv[s]])
    {
      assert SlotOf(m[inv[s]]) == s;
    }
    if a == w {
      forall i: nat | Channels(row) <= i < 8 ensures ChannelOf(m[i]) == 15 {
        assert inv[SlotOf(m[i])] == i;
      }
    }
  }

  /** Allocation 3: FL, FR, LFE and FC, with the mapping stored for it. */
  const FOUR: Row := [0, 0, 0, 0, 0x2, 0x400, 0x4, 0x1]
  const FOUR_MAPPING: seq<nat> := [0x00, 0x11, 0x23, 0x32, 0x44, 0xf5, 0xf6, 0xf7]

  lemma FourIsDistinct()
    ensures Distinct(FOUR)
  {
    assert MASKS[0] == 0x1 && MASKS[1] == 0x4 && MASKS[4] == 0x400 && MASKS[5] == 0x2;
    hide MASKS;
    assert forall s: nat :: Used(FOUR, s) ==> s == 0 || s == 1 || s == 2 || s == 3;
  }

  lemma FourChannels()
    ensures Channels(FOUR) == 4
  {
    assert UsedBelow(FOUR, 2) == 2;
    assert UsedBelow(FOUR, 4) == 4;
    assert UsedBelow(FOUR, 6) == 4;
  }

  lemma FourServed(inv: seq<nat>)
    requires inv == [0, 1, 3, 2, 4, 5, 6, 7]
    ensures Serves(FOUR, FOUR_MAPPING, inv) && !RestMarked(FOUR, FOUR_MAPPING)
  {
    FourChannels();
    hide UsedBelow, Channels;
    var m := FOUR_MAPPING;
    assert SlotOf(m[0]) == 0 && SlotOf(m[1]) == 1 && SlotOf(m[2]) == 3 && SlotOf(m[3]) == 2;
    assert SlotOf(m[4]) == 4 && SlotOf(m[5]) == 5 && SlotOf(m[6]) == 6 && SlotOf(m[7]) == 7;
    assert ChannelOf(m[0]) == 0 && ChannelOf(m[1]) == 1 && ChannelOf(m[2]) == 2 && ChannelOf(m[3]) == 3 && ChannelOf(m[4]) == 4;
    hide SlotOf, ChannelOf;
  }

  /** The stored mapping for allocation 3 is an exception: its fifth entry puts channel 4 on
      slot 4, which has no speaker, so its map does not program the same slots. */
  lemma StoredFourChannelMappingDiffers(maps: seq<nat>, pins: seq<nat>)
    requires Codes(maps) && |pins| == 8
    ensures Distinct(FOUR) && Channels(FOUR) == 4
    ensures forall i :: 0 <= i < 8 ==> SlotOf(FOUR_MAPPING[i]) < 8
    ensures Assigned(maps, FOUR, 4, Reported(maps, FOUR, FOUR_MAPPING), 0, UNASSIGNED) != Written(FOUR_MAPPING, 0, pins)
  {
    FourIsDistinct();
    FourChannels();
    var inv := [0, 1, 3, 2, 4, 5, 6, 7];
    FourServed(inv);
    hide Distinct, Channels, Assigned, Reported, Written, RestMarked, Used;
    ReportedMapProgramsSameSlotsIff(maps, FOUR, 4, FOUR_MAPPING, inv, pins);
  }

  /** For a mapping filled in order that channel is the slot's rank among the used ones. */
  lemma FilledSlotsCarryTheirRank(row: Row, m: seq<nat>, pins: seq<nat>, s: nat)
    requires InOrder(row, m) && |pins| == 8 && s < 8
    ensures forall i :: 0 <= i < 8 ==> SlotOf(m[i]) < 8
    ensures Written(m, 0, pins)[s] == if Used(row, s) then UsedBelow(row, s) else 15
  {
    var inv := InOrderFits(row, m);
    WrittenSlots(m, inv, 0, pins);
    assert SlotOf(m[inv[s]]) == s;
    EntryParts(row, s);
    var t := inv[s];
    assert m[Place(row, s)] == Entry(row, s);
    assert inv[SlotOf(m[Place(row, s)])] == Place(row, s);
  }

  // ---- the driver's procedures ----------------------------------------------------------------

  /** The used slots below a and the unused ones below b have been placed. */
  ghost predicate Placed(row: Row, m: seq<nat>, a: nat, b: nat) {
    && |m| == 8
    && forall s: nat :: s < 8 && s < (if Used(row, s) then a else b) ==> Place(row, s) < 8 && m[Place(row, s)] == Entry(row, s)
  }

  lemma PlaceOne(row: Row, m: seq<nat>, a: nat, b: nat, s: nat)
    requires Placed(row, m, a, b) && s < 8 && s == if Used(row, s) then a else b
    ensures Place(row, s) < 8
    ensures var m' := m[Place(row, s) := Entry(row, s)];
            if Used(row, s) then Placed(row, m', a + 1, b) else Placed(row, m', a, b + 1)
  {
    PlaceBounds(row, s);
    forall t: nat | t < 8 && t != s ensures Place(row, t) != Place(row, s) {
      PlacesDiffer(row, if s < t then s else t, if s < t then t else s);
    }
    hide Place, Entry, UsedBelow;
    forall t: nat | t < 8 && Used(row, t) != Used(row, s) ensures t != s {
    }
  }

  lemma NothingPlaced(row: Row, m: seq<nat>)
    requires |m| == 8
    ensures Placed(row, m, 0, 0)
  {
  }

  lemma SkipUnused(row: Row, m: seq<nat>, a: nat, b: nat)
    requires Placed(row, m, a, b) && !Used(row, a)
    ensures Placed(row, m, a + 1, b)
  {
  }

  lemma SkipUsed(row: Row, m: seq<nat>, a: nat, b: nat)
    requires Placed(row, m, a, b) && Used(row, b)
    ensures Placed(row, m, a, b + 1)
  {
  }

  /** Once as many slots are placed as the row has channels, no used slot is left. */
  lemma AllUsedPlaced(row: Row, m: seq<nat>, a: nat)
    requires a <= 8 && Placed(row, m, a, 0) && UsedBelow(row, a) == Channels(row)
    ensures Placed(row, m, 8, 0)
  {
    forall s: nat | s < 8 && Used(row, s) ensures s < a {
      if a <= s {
        UsedBelowGrows(row, a, s);
        UsedBelowGrows(row, s + 1, 8);
      }
    }
  }

  /** The mapping for compressed formats: channel i on slot i. */
  function NonPcm(channels: nat): seq<nat> {
    seq<nat>(8, (i: nat) => Pack(if i < channels then i else 15, i))
  }

  lemma NonPcmPermutes(channels: nat)
    ensures Permutes(NonPcm(channels), [0, 1, 2, 3, 4, 5, 6, 7])
  {
    forall i: nat | i < 8 ensures SlotOf(NonPcm(channels)[i]) == i {
      PackParts(if i < channels then i else 15, i);
    }
  }

  /** For compressed formats slot s carries channel s, and the slots past the channels none. */
  lemma NonPcmIsPlain(channels: nat, pins: seq<nat>, s: nat)
    requires |pins| == 8 && s < 8
    ensures forall i :: 0 <= i < 8 ==> SlotOf(NonPcm(channels)[i]) < 8
    ensures Written(NonPcm(channels), 0, pins)[s] == if s < channels then s else 15
  {
    var inv := [0, 1, 2, 3, 4, 5, 6, 7];
    NonPcmPermutes(channels);
    WrittenSlots(NonPcm(channels), inv, 0, pins);
    PackParts(if s < channels then s else 15, s);
    assert inv[s] == s;
  }

  /** A pin with its eight slots, and the mapping stored for the current allocation. */
  class Pin {
    const mapping: array<nat>
    const slots: array<nat>

    ghost predicate Valid()
      reads mapping
    {
      mapping.Length == 8 && slots.Length == 8 && mapping != slots
    }

    /** The loop that gives the used slots the stream's channels. */
    method FillUsed(row: Row) returns (i: nat)
      requires Valid()
      modifies mapping
      ensures i == Channels(row) && Placed(row, mapping[..], 8, 0)
    {
      hide Placed;
      var hdmiSlot: nat := 0;
      i := 0;
      UsedBelowGrows(row, 0, 8);
      NothingPlaced(row, mapping[..]);
      while i < Channels(row)
        invariant hdmiSlot <= 8 && i == UsedBelow(row, hdmiSlot) <= Channels(row)
        invariant Placed(row, mapping[..], hdmiSlot, 0)
      {
        while hdmiSlot < 8 && row[7 - hdmiSlot] == 0
          invariant hdmiSlot <= 8 && i == UsedBelow(row, hdmiSlot)
          invariant Placed(row, mapping[..], hdmiSlot, 0)
        {
          SkipUnused(row, mapping[..], hdmiSlot, 0);
          hdmiSlot := hdmiSlot + 1;
        }
        UsedBelowGrows(row, hdmiSlot + 1, 8);
        PlaceOne(row, mapping[..], hdmiSlot, 0, hdmiSlot);
        mapping[i] := Pack(i, hdmiSlot);
        i, hdmiSlot := i + 1, hdmiSlot + 1;
      }
      AllUsedPlaced(row, mapping[..], hdmiSlot);
    }

    /** The loop that gives the unused slots channel 15. */
    method FillUnused(row: Row, from: nat)
      requires Valid() && from == Channels(row) && Placed(row, mapping[..], 8, 0)
      modifies mapping
      ensures InOrder(row, mapping[..])
    {
      var i, hdmiSlot: nat := from, 0;
      while hdmiSlot < 8
        invariant hdmiSlot <= 8 && i == Channels(row) + (hdmiSlot - UsedBelow(row, hdmiSlot))
        invariant Placed(row, mapping[..], 8, hdmiSlot)
      {
        hide Placed;
        if row[7 - hdmiSlot] == 0 {
          PlaceOne(row, mapping[..], 8, hdmiSlot, hdmiSlot);
          mapping[i] := Pack(15, hdmiSlot);
          i := i + 1;
        } else {
          SkipUsed(row, mapping[..], 8, hdmiSlot);
        }
        hdmiSlot := hdmiSlot + 1;
      }
    }

    /** The fill loops of hdmi_std_setup_channel_mapping. */
    method FillMapping(row: Row)
      requires Valid()
      modifies mapping
      ensures InOrder(row, mapping[..])
    {
      var i := FillUsed(row);
      FillUnused(row, i);
    }

    /** Writing the entries of a mapping to the pin, until a write fails. */
    method WriteEntries(m: seq<nat>, fails: (nat, nat) -> bool) returns (ok: bool)
      requires Valid() && |m| == 8 && forall k :: 0 <= k < 8 ==> SlotOf(m[k]) < 8
      modifies slots
      ensures ok <==> forall k :: 0 <= k < 8 ==> !fails(SlotOf(m[k]), ChannelOf(m[k]))
      ensures ok ==> slots[..] == Written(m, 0, old(slots[..]))
    {
      var i := 0;
      while i < 8
        invariant 0 <= i <= 8 && Written(m, 0, old(slots[..])) == Written(m, i, slots[..])
        invariant forall k :: 0 <= k < i ==> !fails(SlotOf(m[k]), ChannelOf(m[k]))
      {
        if fails(SlotOf(m[i]), ChannelOf(m[i])) {
          return false;
        }
        slots[SlotOf(m[i])] := ChannelOf(m[i]);
        i := i + 1;
      }
      ok := true;
    }

    /** hdmi_std_setup_channel_mapping: a mapping not filled in yet is filled; then its
        entries, or the plain ones for compressed formats, are written to the pin until a
        write fails. */
    method StdSetup(row: Row, nonPcm: bool, fails: (nat, nat) -> bool) returns (ok: bool)
      requires Valid()
      requires mapping[1] != 0 ==> forall k :: 0 <= k < 8 ==> SlotOf(mapping[k]) < 8
      modifies mapping, slots
      ensures old(mapping[1]) != 0 ==> mapping[..] == old(mapping[..])
      ensures old(mapping[1]) == 0 ==> InOrder(row, mapping[..])
      ensures var m := if nonPcm then NonPcm(Channels(row)) else mapping[..];
              && (forall k :: 0 <= k < 8 ==> SlotOf(m[k]) < 8)
              && (ok <==> forall k :: 0 <= k < 8 ==> !fails(SlotOf(m[k]), ChannelOf(m[k])))
              && (ok ==> slots[..] == Written(m, 0, old(slots[..])))
    {
      hide InOrder;
      if mapping[1] == 0 {
        FillMapping(row);
        ghost var inv := InOrderFits(row, mapping[..]);
      }
      NonPcmPermutes(Channels(row));
      hide NonPcm, Channels;
      if nonPcm {
        ok := WriteEntries(NonPcm(Channels(row)), fails);
      } else {
        ok := WriteEntries(mapping[..], fails);
      }
    }

    /** to_cea_slot's search. */
    static method ToCeaSlot(maps: seq<nat>, row: Row, pos: nat) returns (slot: int)
      requires |maps| == |MASKS|
      ensures slot == if ToSlot(maps, row, pos) == 8 then -1 else ToSlot(maps, row, pos)
    {
      var mask := ToMask(maps, pos, 0);
      if mask != 0 {
        var i := 0;
        while i < 8
          invariant 0 <= i <= 8 && FindSlot(row, mask, 0) == FindSlot(row, mask, i)
        {
          if row[7 - i] == mask {
            return i;
          }
          i := i + 1;
        }
      }
      slot := -1;
    }

    /** hdmi_manual_setup_channel_mapping: 0, or -EINVAL as soon as a write fails. */
    method ManualSetup(maps: seq<nat>, row: Row, chs: nat, map_: seq<nat>, fails: (nat, nat) -> bool) returns (err: int)
      requires Valid() && |maps| == |MASKS| && chs <= |map_|
      modifies slots
      ensures var a := Assigned(maps, row, chs, map_, 0, UNASSIGNED);
              && (err == 0 <==> forall s: nat :: s < 8 ==> !fails(s, a[s]))
              && (err == 0 ==> slots[..] == a)
              && (err != 0 ==> err == -22)
    {
      var assignments := new nat[8](_ => 15);
      var alsaPos := 0;
      assert assignments[..] == UNASSIGNED;
      while alsaPos < chs
        invariant 0 <= alsaPos <= chs
        invariant Assigned(maps, row, chs, map_, 0, UNASSIGNED) == Assigned(maps, row, chs, map_, alsaPos, assignments[..])
      {
        var hdmiSlot := ToCeaSlot(maps, row, map_[alsaPos]);
        if hdmiSlot >= 0 {
          assignments[hdmiSlot] := alsaPos;
        }
        alsaPos := alsaPos + 1;
      }
      var slot: nat := 0;
      while slot < 8
        invariant slot <= 8 && assignments[..] == Assigned(maps, row, chs, map_, 0, UNASSIGNED)
        invariant slots[..slot] == assignments[..slot]
        invariant forall s: nat :: s < slot ==> !fails(s, assignments[s])
      {
        if fails(slot, assignments[slot]) {
          return -22;
        }
        slots[slot] := assignments[slot];
        slot := slot + 1;
      }
      assert slots[..] == slots[..8] && assignments[..] == assignments[..8];
      err := 0;
    }

    /** hdmi_setup_fake_chmap */
    method FakeChmap(maps: seq<nat>, row: Row, map_: array<nat>)
      requires Valid() && |maps| == |MASKS| && map_.Length == 8 && map_ != mapping
      modifies map_
      ensures map_[..] == Reported(maps, row, mapping[..])
    {
      for i := 0 to 8
        invariant mapping[..] == old(mapping[..])
        invariant map_[..i] == Reported(maps, row, mapping[..])[..i]
      {
        if i < Channels(row) {
          map_[i] := FromSlot(maps, row, SlotOf(mapping[i]));
        } else {
          map_[i] := 0;
        }
      }
    }
  }
}
