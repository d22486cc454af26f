/** The output side of the mixer: control puts update DSP parameters incrementally, and
    after every put the parameters are one fixed function of the settings. Auto-detection
    of headphones is off and every SCP write succeeds. */
module Mixer {
  import opened Options
  import opened Words

  datatype Level = ZERO | ONE | TWO | FIVE | SIX | EIGHT     // the FLOAT_* tokens

  datatype Output = Speaker | Headphone

  datatype Quirk = AE5 | AE7 | AE9 | OtherCard

  predicate IsAeSeries(q: Quirk) {
    q != OtherCard
  }

  datatype Effect = Surround | Crystalizer | DialogPlus | SmartVolume | XBass | Equalizer

  /** Speaker layouts in the order of the control's items. */
  datatype Layout = L20 | L21 | L40 | L41 | L51

  predicate HasLfe(c: Layout) {
    c != L20 && c != L40
  }

  function LayoutLevel(c: Layout): Level {
    match c
    case L20 => ONE
    case L21 => TWO
    case L40 => FIVE
    case L41 => SIX
    case L51 => EIGHT
  }

  /** The DSP parameters the output controls own. */
  datatype Param =
    | Fx(e: Effect)
    | OutputConfig | BassRedirect | TuningMute | UseSpeakerEq | EqBypass
    | FrontLeftInvert | FrontRightInvert
    | FullRangeFront | FullRangeCenterLfe | FullRangeRear | FullRangeSurround

  /** Module and request under which SCP addresses them. */
  function Address(p: Param): (nat, nat) {
    match p
    case Fx(Surround) => (0x96, 0)
    case Fx(Crystalizer) => (0x96, 7)
    case Fx(DialogPlus) => (0x96, 2)
    case Fx(SmartVolume) => (0x96, 4)
    case Fx(XBass) => (0x96, 24)
    case Fx(Equalizer) => (0x96, 9)
    case OutputConfig => (0x80, 0x04)
    case BassRedirect => (0x96, 0x15)
    case TuningMute => (0x96, 0x3a)
    case UseSpeakerEq => (0x96, 0x1f)
    case EqBypass => (0x8f, 0x01)
    case FrontLeftInvert => (0x96, 0x29)
    case FrontRightInvert => (0x96, 0x2a)
    case FullRangeFront => (0x96, 0x1a)
    case FullRangeCenterLfe => (0x96, 0x1b)
    case FullRangeRear => (0x96, 0x1c)
    case FullRangeSurround => (0x96, 0x1d)
  }

  /** No two of them share an address, so writing one leaves the others alone. */
  lemma AddressesAreDistinct(p: Param, q: Param)
    ensures Address(p) == Address(q) <==> p == q
  {
  }

  type Dsp = map<Param, Level>

  function At(d: Dsp, p: Param): Option<Level> {
    if p in d then Some(d[p]) else None
  }

  /** What the user has chosen. */
  datatype Settings = Settings(
    quirk: Quirk, outEnum: Output, layout: Layout, playEnhancement: bool, effects: map<Effect, bool>,
    fullRangeFront: bool, fullRangeRear: bool, bassRedirection: bool)

  predicate Switched(s: Settings, e: Effect) {
    e in s.effects && s.effects[e]
  }

  function OnOff(b: bool): Level {
    if b then ONE else ZERO
  }

  // ---- the one function of the settings ------------------------------------------------

  /** An output effect runs if it and OutFX are switched on, except that X-Bass is off on
      speaker layouts with an LFE channel. */
  predicate EffectRuns(s: Settings, e: Effect) {
    s.playEnhancement && Switched(s, e) && !(e == XBass && s.outEnum == Speaker && HasLfe(s.layout))
  }

  function ConfigTarget(s: Settings): Level {
    if s.outEnum == Headphone then OnOff(s.playEnhancement)
    else if !s.playEnhancement && s.layout == L20 then EIGHT
    else LayoutLevel(s.layout)
  }

  /** The value the settings determine for a parameter, if they do: invert flags exist on
      the AE cards only, and full-range flags count on speaker layouts with an LFE channel. */
  function Target(s: Settings, p: Param): Option<Level> {
    match p
    case Fx(e) => Some(OnOff(EffectRuns(s, e)))
    case OutputConfig => Some(ConfigTarget(s))
    case BassRedirect => Some(OnOff(s.outEnum == Speaker && s.bassRedirection && HasLfe(s.layout)))
    case TuningMute => Some(ZERO)
    case UseSpeakerEq => Some(ZERO)
    case EqBypass => Some(ZERO)
    case FrontLeftInvert => if IsAeSeries(s.quirk) then Some(OnOff(s.outEnum == Headphone)) else None
    case FrontRightInvert => if IsAeSeries(s.quirk) then Some(OnOff(s.outEnum == Headphone)) else None
    case FullRangeFront => if s.outEnum == Speaker && HasLfe(s.layout) then Some(OnOff(!s.fullRangeFront)) else None
    case FullRangeCenterLfe => if s.outEnum == Speaker && HasLfe(s.layout) then Some(OnOff(!s.fullRangeRear)) else None
    case FullRangeRear => if s.outEnum == Speaker && HasLfe(s.layout) then Some(OnOff(!s.fullRangeRear)) else None
    case FullRangeSurround =>
      if s.outEnum == Speaker && HasLfe(s.layout) && IsAeSeries(s.quirk) then Some(ONE) else None
  }

  /** The DSP shows at p what the settings say. */
  predicate Agrees(s: Settings, dsp: Dsp, p: Param) {
    Target(s, p).Some? ==> At(dsp, p) == Target(s, p)
  }

  ghost predicate Consistent(s: Settings, dsp: Dsp) {
    forall p :: Agrees(s, dsp, p)
  }

  // ---- the driver's incremental updates ----------------------------------------------------

  /** ca0132_effects_set for an output effect. */
  function SetEffect(s: Settings, dsp: Dsp, e: Effect, on: bool): Dsp {
    var v := on && s.playEnhancement && !(s.outEnum == Speaker && e == XBass && HasLfe(s.layout));
    dsp[Fx(e) := OnOff(v)]
  }

  function SetInvert(s: Settings, dsp: Dsp): Dsp {
    if !IsAeSeries(s.quirk) then dsp
    else dsp[FrontLeftInvert := OnOff(s.outEnum == Headphone)][FrontRightInvert := OnOff(s.outEnum == Headphone)]
  }

  /** ca0132_alt_surround_set_bass_redirection; the crossover value is left out. */
  function SetBassRedirection(s: Settings, dsp: Dsp, val: bool): Dsp {
    dsp[BassRedirect := OnOff(val && HasLfe(s.layout))]
  }

  /** ca0132_alt_set_full_range_speaker. */
  function SetFullRange(s: Settings, dsp: Dsp): Dsp {
    if !HasLfe(s.layout) then dsp
    else
      var d := dsp[FullRangeFront := OnOff(!s.fullRangeFront)]
               [FullRangeCenterLfe := OnOff(!s.fullRangeRear)][FullRangeRear := OnOff(!s.fullRangeRear)];
      if IsAeSeries(s.quirk) then d[FullRangeSurround := ONE] else d
  }

  /** ca0132_alt_select_out with auto-detection off. */
  function SelectOut(s: Settings, dsp: Dsp): Dsp {
    var d1 := SetInvert(s, dsp[TuningMute := ONE]);
    var d2 := d1[OutputConfig := ConfigTarget(s)];
    var d3 := if s.playEnhancement then SetEffect(s, d2, XBass, Switched(s, XBass)) else d2;
    var d4 := d3[EqBypass := ZERO][UseSpeakerEq := ZERO];
    var d5 := SetBassRedirection(s, d4, s.outEnum == Speaker && s.bassRedirection);
    var d6 := d5[TuningMute := ZERO];
    if s.outEnum == Speaker then SetFullRange(s, d6) else d6
  }

  /** The output effects in the order of their control numbers. */
  const ORDER: seq<Effect> := [Surround, Crystalizer, DialogPlus, SmartVolume, XBass, Equalizer]

  /** ca0132_pe_switch_set after its first n effects. */
  function SetFirst(s: Settings, dsp: Dsp, n: nat): Dsp
    requires n <= |ORDER|
  {
    if n == 0 then SelectOut(s, dsp)
    else SetEffect(s, SetFirst(s, dsp, n - 1), ORDER[n - 1], Switched(s, ORDER[n - 1]))
  }

  function SetAll(s: Settings, dsp: Dsp): Dsp {
    SetFirst(s, dsp, |ORDER|)
  }

  /** The mixer controls. */
  datatype Put =
    | PutOutput(out: Output)
    | PutLayout(layout: Layout)
    | PutOutFx(on: bool)
    | PutEffect(e: Effect, on: bool)
    | PutFullRangeFront(on: bool)
    | PutFullRangeRear(on: bool)
    | PutBassRedirection(on: bool)

  function NewSettings(s: Settings, x: Put): Settings {
    match x
    case PutOutput(o) => s.(outEnum := o)
    case PutLayout(c) => s.(layout := c)
    case PutOutFx(on) => s.(playEnhancement := on)
    case PutEffect(e, on) => s.(effects := s.effects[e := on])
    case PutFullRangeFront(on) => s.(fullRangeFront := on)
    case PutFullRangeRear(on) => s.(fullRangeRear := on)
    case PutBassRedirection(on) => s.(bassRedirection := on)
  }

  /** What a put sends to the DSP, given the settings already changed. */
  function Update(s: Settings, dsp: Dsp, x: Put): Dsp {
    match x
    case PutOutput(_) => SelectOut(s, dsp)
    case PutLayout(_) => if s.outEnum == Speaker then SelectOut(s, dsp) else dsp
    case PutOutFx(_) => SetAll(s, dsp)
    case PutEffect(e, on) => SetEffect(s, dsp, e, on)
    case PutFullRangeFront(_) => if s.outEnum == Speaker then SetFullRange(s, dsp) else dsp
    case PutFullRangeRear(_) => if s.outEnum == Speaker then SetFullRange(s, dsp) else dsp
    case PutBassRedirection(on) => if s.outEnum == Speaker then SetBassRedirection(s, dsp, on) else dsp
  }

  // ---- theorems -------------------------------------------------------------------------------

  predicate IsInvert(p: Param) {
    p.FrontLeftInvert? || p.FrontRightInvert?
  }

  predicate IsRange(p: Param) {
    p.FullRangeFront? || p.FullRangeCenterLfe? || p.FullRangeRear? || p.FullRangeSurround?
  }

  lemma SetInvertAt(s: Settings, dsp: Dsp, p: Param)
    ensures if IsInvert(p) then Agrees(s, SetInvert(s, dsp), p) else At(SetInvert(s, dsp), p) == At(dsp, p)
  {
  }

  lemma SetFullRangeAt(s: Settings, dsp: Dsp, p: Param)
    ensures IsRange(p) ==> Agrees(s, SetFullRange(s, dsp), p)
    ensures !IsRange(p) ==> At(SetFullRange(s, dsp), p) == At(dsp, p)
  {
  }

  /** Switching outputs writes everything but the effects (X-Bass only with OutFX on), and
      what it writes is right whatever the DSP held before. */
  lemma SelectOutAt(s: Settings, dsp: Dsp, p: Param)
    ensures !p.Fx? || (p == Fx(XBass) && s.playEnhancement) ==> Agrees(s, SelectOut(s, dsp), p)
    ensures p.Fx? && !(p == Fx(XBass) && s.playEnhancement) ==> At(SelectOut(s, dsp), p) == At(dsp, p)
  {
    var d1 := SetInvert(s, dsp[TuningMute := ONE]);
    SetInvertAt(s, dsp[TuningMute := ONE], p);
    var d2 := d1[OutputConfig := ConfigTarget(s)];
    var d3 := if s.playEnhancement then SetEffect(s, d2, XBass, Switched(s, XBass)) else d2;
    var d4 := d3[EqBypass := ZERO][UseSpeakerEq := ZERO];
    var d5 := SetBassRedirection(s, d4, s.outEnum == Speaker && s.bassRedirection);
    var d6 := d5[TuningMute := ZERO];
    SetFullRangeAt(s, d6, p);
    hide SetInvert, SetFullRange, ConfigTarget;
    assert SelectOut(s, dsp) == if s.outEnum == Speaker then SetFullRange(s, d6) else d6;
    assert !p.Fx? && !p.OutputConfig? && !p.EqBypass? && !p.UseSpeakerEq? && !p.BassRedirect? && !p.TuningMute?
        ==> At(d6, p) == At(d1, p);
  }

  lemma SetEffectAt(s: Settings, dsp: Dsp, e: Effect, p: Param)
    ensures var r := SetEffect(s, dsp, e, Switched(s, e));
            Agrees(s, r, Fx(e)) && (p != Fx(e) ==> At(r, p) == At(dsp, p))
  {
  }

  lemma {:induction false} SetFirstAt(s: Settings, dsp: Dsp, n: nat, p: Param)
    requires n <= |ORDER|
    ensures !p.Fx? || p.e in ORDER[..n] ==> Agrees(s, SetFirst(s, dsp, n), p)
  {
    hide SelectOut, SetEffect, Target;
    if n == 0 {
      SelectOutAt(s, dsp, p);
    } else {
      SetFirstAt(s, dsp, n - 1, p);
      SetEffectAt(s, SetFirst(s, dsp, n - 1), ORDER[n - 1], p);
      assert ORDER[..n] == ORDER[..n - 1] + [ORDER[n - 1]];
    }
  }

  lemma OrderIsComplete(e: Effect)
    ensures e in ORDER[..|ORDER|]
  {
    assert ORDER[0].Surround? && ORDER[1].Crystalizer? && ORDER[2].DialogPlus?;
    assert ORDER[3].SmartVolume? && ORDER[4].XBass? && ORDER[5].Equalizer?;
    match e
    case Surround =>
    case Crystalizer =>
    case DialogPlus =>
    case SmartVolume =>
    case XBass =>
    case Equalizer =>
  }

  /** Turning OutFX on or off recomputes everything: it makes the DSP consistent from any
      state at all. */
  lemma SetAllIsFullRecompute(s: Settings, dsp: Dsp)
    ensures Consistent(s, SetAll(s, dsp))
  {
    hide SelectOut, SetEffect, Target;
    forall p
      ensures Agrees(s, SetAll(s, dsp), p)
    {
      SetFirstAt(s, dsp, |ORDER|, p);
      if p.Fx? {
        OrderIsComplete(p.e);
      }
    }
  }

  /** Every put keeps the DSP consistent with the settings. */
  lemma PutKeepsConsistent(s: Settings, dsp: Dsp, x: Put)
    requires Consistent(s, dsp)
    ensures Consistent(NewSettings(s, x), Update(NewSettings(s, x), dsp, x))
  {
    var n := NewSettings(s, x);
    if x.PutOutFx? {
      SetAllIsFullRecompute(n, dsp);
    } else {
      forall p
        ensures Agrees(n, Update(n, dsp, x), p)
      {
        assert Agrees(s, dsp, p);
        if x.PutOutput? || x.PutLayout? {
          SelectOutAt(n, dsp, p);
        }
      }
    }
  }

  /** A run of puts: settings and DSP side by side. */
  function PutAll(s: Settings, dsp: Dsp, xs: seq<Put>): (Settings, Dsp) {
    if xs == [] then (s, dsp)
    else
      var (s1, d1) := PutAll(s, dsp, Front(xs));
      var n := NewSettings(s1, Last(xs));
      (n, Update(n, d1, Last(xs)))
  }

  /** The main result: after any run of puts the DSP agrees, on everything the settings
      determine, with a full recomputation from scratch. */
  lemma {:induction false} IncrementalEqualsFull(s: Settings, dsp: Dsp, xs: seq<Put>, scratch: Dsp)
    requires Consistent(s, dsp)
    ensures var (n, d) := PutAll(s, dsp, xs);
            Consistent(n, d) && forall p :: Target(n, p).Some? ==> At(d, p) == At(SetAll(n, scratch), p)
  {
    if xs != [] {
      IncrementalEqualsFull(s, dsp, Front(xs), scratch);
      var (s1, d1) := PutAll(s, dsp, Front(xs));
      PutKeepsConsistent(s1, d1, Last(xs));
    }
    var (n, d) := PutAll(s, dsp, xs);
    SetAllIsFullRecompute(n, scratch);
    forall p | Target(n, p).Some?
      ensures At(d, p) == At(SetAll(n, scratch), p)
    {
      assert Agrees(n, d, p) && Agrees(n, SetAll(n, scratch), p);
    }
  }

  /** A DSP consistent with the settings, parameter by parameter. */
  lemma ConsistentShows(s: Settings, dsp: Dsp)
    requires Consistent(s, dsp)
    ensures s.outEnum == Headphone ==> At(dsp, OutputConfig) == Some(if s.playEnhancement then ONE else ZERO)
    ensures s.outEnum == Speaker ==>
              At(dsp, OutputConfig) == Some(match s.layout
                                            case L20 => if s.playEnhancement then ONE else EIGHT
                                            case L21 => TWO
                                            case L40 => FIVE
                                            case L41 => SIX
                                            case L51 => EIGHT)
    ensures s.quirk != OtherCard ==>
              At(dsp, FrontLeftInvert) == At(dsp, FrontRightInvert) == Some(if s.outEnum == Headphone then ONE else ZERO)
    ensures At(dsp, TuningMute) == At(dsp, EqBypass) == At(dsp, UseSpeakerEq) == Some(ZERO)
    ensures var lfe := s.outEnum == Speaker && s.layout in {L21, L41, L51};
            && At(dsp, BassRedirect) == Some(if lfe && s.bassRedirection then ONE else ZERO)
            && (lfe ==> At(dsp, FullRangeFront) == Some(if s.fullRangeFront then ZERO else ONE)
                        && At(dsp, FullRangeRear) == At(dsp, FullRangeCenterLfe) == Some(if s.fullRangeRear then ZERO else ONE)
                        && (s.quirk != OtherCard ==> At(dsp, FullRangeSurround) == Some(ONE)))
            && forall e :: At(dsp, Fx(e)) == Some(if s.playEnhancement && e in s.effects && s.effects[e] && !(e == XBass && lfe)
                                                  then ONE else ZERO)
  {
    assert Agrees(s, dsp, OutputConfig) && Agrees(s, dsp, FrontLeftInvert) && Agrees(s, dsp, FrontRightInvert);
    assert Agrees(s, dsp, TuningMute) && Agrees(s, dsp, EqBypass) && Agrees(s, dsp, UseSpeakerEq) && Agrees(s, dsp, BassRedirect);
    assert Agrees(s, dsp, FullRangeFront) && Agrees(s, dsp, FullRangeRear);
    assert Agrees(s, dsp, FullRangeCenterLfe) && Agrees(s, dsp, FullRangeSurround);
    forall e
      ensures At(dsp, Fx(e)) == Some(OnOff(EffectRuns(s, e)))
    {
      assert Agrees(s, dsp, Fx(e));
    }
  }

  // ---- the settings over runs of puts ----------------------------------------------------------

  /** Two puts of one control. */
  predicate SameControl(x: Put, y: Put) {
    match x
    case PutOutput(_) => y.PutOutput?
    case PutLayout(_) => y.PutLayout?
    case PutOutFx(_) => y.PutOutFx?
    case PutEffect(e, _) => y.PutEffect? && y.e == e
    case PutFullRangeFront(_) => y.PutFullRangeFront?
    case PutFullRangeRear(_) => y.PutFullRangeRear?
    case PutBassRedirection(_) => y.PutBassRedirection?
  }

  /** The control of x has the value that x puts. */
  predicate Holds(s: Settings, x: Put) {
    match x
    case PutOutput(o) => s.outEnum == o
    case PutLayout(c) => s.layout == c
    case PutOutFx(on) => s.playEnhancement == on
    case PutEffect(e, on) => e in s.effects && s.effects[e] == on
    case PutFullRangeFront(on) => s.fullRangeFront == on
    case PutFullRangeRear(on) => s.fullRangeRear == on
    case PutBassRedirection(on) => s.bassRedirection == on
  }

  /** Nobody puts the control of x later than at place i. */
  predicate LastOfItsControl(xs: seq<Put>, i: nat)
    requires i < |xs|
  {
    forall j :: i < j < |xs| ==> !SameControl(xs[j], xs[i])
  }

  lemma OnePut(s: Settings, x: Put, y: Put)
    ensures Holds(NewSettings(s, x), x)
    ensures !SameControl(x, y) ==> (Holds(NewSettings(s, x), y) <==> Holds(s, y))
    ensures NewSettings(s, x).quirk == s.quirk
  {
  }

  /** After any run of puts each control has the value of its own last put, and a control
      nobody has put has its first value. */
  lemma {:induction false} SettingsAreLastPuts(s: Settings, dsp: Dsp, xs: seq<Put>)
    ensures var n := PutAll(s, dsp, xs).0;
            && n.quirk == s.quirk
            && (forall i :: 0 <= i < |xs| && LastOfItsControl(xs, i) ==> Holds(n, xs[i]))
            && (forall y :: (forall i :: 0 <= i < |xs| ==> !SameControl(xs[i], y)) ==> (Holds(n, y) <==> Holds(s, y)))
  {
    if xs != [] {
      hide Update, NewSettings, Holds, SameControl;
      var was := PutAll(s, dsp, Front(xs)).0;
      SettingsAreLastPuts(s, dsp, Front(xs));
      var n := PutAll(s, dsp, xs).0;
      forall i | 0 <= i < |xs| && LastOfItsControl(xs, i)
        ensures Holds(n, xs[i])
      {
        OnePut(was, Last(xs), xs[i]);
        assert i < |xs| - 1 ==> LastOfItsControl(Front(xs), i) && Front(xs)[i] == xs[i];
      }
      forall y | forall i :: 0 <= i < |xs| ==> !SameControl(xs[i], y)
        ensures Holds(n, y) <==> Holds(s, y)
      {
        OnePut(was, Last(xs), y);
        assert forall i :: 0 <= i < |Front(xs)| ==> Front(xs)[i] == xs[i];
      }
      OnePut(was, Last(xs), Last(xs));
    }
  }

  // ---- the codec object ---------------------------------------------------------------------

  class Codec {
    const quirk: Quirk
    var curOutType: Output
    var outEnumVal: Output
    var channelCfgVal: Layout
    var playEnhancement: bool
    var effectsSwitch: map<Effect, bool>
    var speakerRangeFront: bool
    var speakerRangeRear: bool
    var bassRedirectionVal: bool
    var acmPendingMode: bool
    var acmPendingFx: bool
    var dsp: Dsp

    ghost function View(): Settings
      reads this
    {
      Settings(quirk, outEnumVal, channelCfgVal, playEnhancement, effectsSwitch, speakerRangeFront, speakerRangeRear,
               bassRedirectionVal)
    }

    ghost predicate Valid()
      reads this
    {
      curOutType == outEnumVal && Consistent(View(), dsp)
    }

    constructor (s: Settings)
      ensures Valid() && View() == s
    {
      quirk, curOutType, outEnumVal, channelCfgVal := s.quirk, s.outEnum, s.outEnum, s.layout;
      playEnhancement, effectsSwitch := s.playEnhancement, s.effects;
      speakerRangeFront, speakerRangeRear, bassRedirectionVal := s.fullRangeFront, s.fullRangeRear, s.bassRedirection;
      acmPendingMode, acmPendingFx := false, false;
      dsp := map[];
      new;
      SetAllIsFullRecompute(s, dsp);
      PeSwitchSet();
    }

    /** dspio_set_uint_param on an output parameter. */
    method SetParam(p: Param, v: Level)
      modifies this`dsp
      ensures dsp == old(dsp)[p := v]
    {
      dsp := dsp[p := v];
    }

    /** ca0132_effects_set. */
    method EffectsSet(e: Effect, on: bool)
      requires curOutType == outEnumVal
      modifies this`dsp
      ensures dsp == SetEffect(View(), old(dsp), e, on)
    {
      var val := on;
      if !playEnhancement {
        val := false;
      }
      if curOutType == Speaker && e == XBass {
        if channelCfgVal != L20 && channelCfgVal != L40 {
          val := false;
        }
      }
      SetParam(Fx(e), if val then ONE else ZERO);
    }

    /** ca0132_alt_set_full_range_speaker. */
    method SetFullRangeSpeaker()
      modifies this`dsp
      ensures dsp == SetFullRange(View(), old(dsp))
    {
      if channelCfgVal == L40 || channelCfgVal == L20 {
        return;
      }
      SetParam(FullRangeFront, if speakerRangeFront then ZERO else ONE);
      var tmp := if speakerRangeRear then ZERO else ONE;
      SetParam(FullRangeCenterLfe, tmp);
      SetParam(FullRangeRear, tmp);
      if quirk == AE5 || quirk == AE9 || quirk == AE7 {
        SetParam(FullRangeSurround, ONE);
      }
    }

    /** ca0132_alt_surround_set_bass_redirection. */
    method SetBass(val: bool)
      modifies this`dsp
      ensures dsp == SetBassRedirection(View(), old(dsp), val)
    {
      SetParam(BassRedirect, if val && channelCfgVal != L40 && channelCfgVal != L20 then ONE else ZERO);
    }

    /** The SCP commands of ca0132_alt_select_out_quirk_set. */
    method QuirkSet()
      requires curOutType == outEnumVal
      modifies this`dsp
      ensures dsp == SetInvert(View(), old(dsp))
    {
      if quirk == AE5 || quirk == AE9 || quirk == AE7 {
        var v := if curOutType == Headphone then ONE else ZERO;
        SetParam(FrontLeftInvert, v);
        SetParam(FrontRightInvert, v);
      }
    }

    /** ca0132_alt_select_out with auto-detection off. */
    method AltSelectOut()
      modifies this`dsp, this`curOutType, this`acmPendingMode
      ensures curOutType == outEnumVal && dsp == SelectOut(View(), old(dsp))
      ensures acmPendingMode == (old(acmPendingMode) || quirk == AE9)
    {
      curOutType := outEnumVal;
      if quirk == AE9 {
        acmPendingMode := true;
      }
      SetParam(TuningMute, ONE);
      QuirkSet();
      match curOutType {
        case Speaker =>
          var tmp := LayoutLevel(channelCfgVal);
          if !playEnhancement && channelCfgVal == L20 {
            tmp := EIGHT;
          }
          SetParam(OutputConfig, tmp);
        case Headphone =>
          SetParam(OutputConfig, if playEnhancement then ONE else ZERO);
      }
      if playEnhancement {
        EffectsSet(XBass, XBass in effectsSwitch && effectsSwitch[XBass]);
      }
      SetParam(EqBypass, ZERO);
      SetParam(UseSpeakerEq, ZERO);
      SetBass(curOutType == Speaker && bassRedirectionVal);
      SetParam(TuningMute, ZERO);
      if curOutType == Speaker {
        SetFullRangeSpeaker();
      }
    }

    /** ca0132_pe_switch_set. */
    method PeSwitchSet()
      modifies this`dsp, this`curOutType, this`acmPendingMode
      ensures curOutType == outEnumVal && dsp == SetAll(View(), old(dsp))
      ensures acmPendingMode == (old(acmPendingMode) || quirk == AE9)
    {
      AltSelectOut();
      for i := 0 to |ORDER|
        invariant curOutType == outEnumVal && dsp == SetFirst(View(), old(dsp), i)
        invariant acmPendingMode == (old(acmPendingMode) || quirk == AE9)
      {
        EffectsSet(ORDER[i], ORDER[i] in effectsSwitch && effectsSwitch[ORDER[i]]);
      }
    }

    /** ca0132_alt_output_select_put: the setting changes, the DSP is updated incrementally and
        ends up consistent with all settings; so for the other controls. */
    method OutputSelectPut(sel: Output)
      requires Valid()
      modifies this
      ensures Valid()
      ensures outEnumVal == sel && View() == old(View()).(outEnum := sel)
      ensures acmPendingMode == (old(acmPendingMode) || quirk == AE9) && acmPendingFx == old(acmPendingFx)
      ensures View() == NewSettings(old(View()), PutOutput(sel))
      ensures dsp == Update(View(), old(dsp), PutOutput(sel))
    {
      hide SelectOut, SetAll, SetEffect, SetFullRange, SetBassRedirection, Consistent;
      PutKeepsConsistent(View(), dsp, PutOutput(sel));
      outEnumVal := sel;
      AltSelectOut();
    }

    /** ca0132_alt_speaker_channel_cfg_put. */
    method ChannelCfgPut(sel: Layout)
      requires Valid()
      modifies this
      ensures Valid()
      ensures channelCfgVal == sel && View() == old(View()).(layout := sel)
      ensures acmPendingMode == (old(acmPendingMode) || (quirk == AE9 && outEnumVal == Speaker)) && acmPendingFx == old(acmPendingFx)
      ensures View() == NewSettings(old(View()), PutLayout(sel))
      ensures dsp == Update(View(), old(dsp), PutLayout(sel))
    {
      hide SelectOut, SetAll, SetEffect, SetFullRange, SetBassRedirection, Consistent;
      PutKeepsConsistent(View(), dsp, PutLayout(sel));
      channelCfgVal := sel;
      if outEnumVal == Speaker {
        AltSelectOut();
      }
    }

    /** ca0132_switch_put for OutFX (Play Enhancement). */
    method OutFxPut(on: bool)
      requires Valid()
      modifies this
      ensures Valid()
      ensures playEnhancement == on && View() == old(View()).(playEnhancement := on)
      ensures acmPendingFx == (old(acmPendingFx) || quirk == AE9) && acmPendingMode == (old(acmPendingMode) || quirk == AE9)
      ensures View() == NewSettings(old(View()), PutOutFx(on))
      ensures dsp == Update(View(), old(dsp), PutOutFx(on))
    {
      hide SelectOut, SetAll, SetEffect, SetFullRange, SetBassRedirection, Consistent;
      PutKeepsConsistent(View(), dsp, PutOutFx(on));
      playEnhancement := on;
      if quirk == AE9 {
        acmPendingFx := true;
      }
      PeSwitchSet();
    }

    /** ca0132_switch_put for one output effect. */
    method EffectPut(e: Effect, on: bool)
      requires Valid()
      modifies this
      ensures Valid()
      ensures effectsSwitch == old(effectsSwitch)[e := on] && View() == old(View()).(effects := effectsSwitch)
      ensures acmPendingMode == old(acmPendingMode) && acmPendingFx == old(acmPendingFx)
      ensures View() == NewSettings(old(View()), PutEffect(e, on))
      ensures dsp == Update(View(), old(dsp), PutEffect(e, on))
    {
      hide SelectOut, SetAll, SetEffect, SetFullRange, SetBassRedirection, Consistent;
      PutKeepsConsistent(View(), dsp, PutEffect(e, on));
      effectsSwitch := effectsSwitch[e := on];
      EffectsSet(e, on);
    }

    /** ca0132_switch_put for the front and rear full-range switches. */
    method FullRangePut(rear: bool, on: bool)
      requires Valid()
      modifies this
      ensures Valid()
      ensures if rear then speakerRangeRear == on && View() == old(View()).(fullRangeRear := on)
              else speakerRangeFront == on && View() == old(View()).(fullRangeFront := on)
      ensures acmPendingMode == old(acmPendingMode) && acmPendingFx == old(acmPendingFx)
      ensures View() == NewSettings(old(View()), if rear then PutFullRangeRear(on) else PutFullRangeFront(on))
      ensures dsp == Update(View(), old(dsp), if rear then PutFullRangeRear(on) else PutFullRangeFront(on))
    {
      hide SelectOut, SetAll, SetEffect, SetFullRange, SetBassRedirection, Consistent;
      PutKeepsConsistent(View(), dsp, if rear then PutFullRangeRear(on) else PutFullRangeFront(on));
      if rear {
        speakerRangeRear := on;
      } else {
        speakerRangeFront := on;
      }
      if curOutType == Speaker {
        SetFullRangeSpeaker();
      }
    }

    /** ca0132_switch_put for bass redirection. */
    method BassRedirectionPut(on: bool)
      requires Valid()
      modifies this
      ensures Valid()
      ensures bassRedirectionVal == on && View() == old(View()).(bassRedirection := on)
      ensures acmPendingMode == old(acmPendingMode) && acmPendingFx == old(acmPendingFx)
      ensures View() == NewSettings(old(View()), PutBassRedirection(on))
      ensures dsp == Update(View(), old(dsp), PutBassRedirection(on))
    {
      hide SelectOut, SetAll, SetEffect, SetFullRange, SetBassRedirection, Consistent;
      PutKeepsConsistent(View(), dsp, PutBassRedirection(on));
      bassRedirectionVal := on;
      if curOutType == Speaker {
        SetBass(on);
      }
    }
  }
}
