/** The service of the AE-9 control module. Mixer controls write a setting and then raise a
    pending flag, at any time; the service clears the flag, reads the setting and sends it.
    Every read, write and send is a step of its own, and steps interleave freely. */
module Acm {
  import opened Options
  import opened Words

  /** Where a send is: the flag is already cleared, or the value already read. */
  datatype Sending = Idle | Cleared | Holding(value: bool)

  /** OutFX and headphone output; the two flags; how many writers have written but not yet
      flagged; the last values sent; the amp bit in the module; the service's sends. */
  datatype State = State(
    fx: bool, hp: bool,
    pendingFx: bool, pendingMode: bool,
    midFx: nat, midMode: nat,
    light: Option<bool>, amp: Option<bool>, ampReg: bool,
    sendFx: Sending, sendMode: Sending,
    present: bool)

  datatype Step =
    // writers: mixer controls, jack events, the module's own buttons
    | WriteFx(v: bool) | FlagFx
    | WriteMode(v: bool) | FlagMode
    // the service
    | ClearFx | ReadFx | SendFx
    | ClearMode | ReadMode | SendMode
    | StartCheck                   // the periodic check found a wrong amp bit
    | StartLight                   // initialisation sends without a flag
    | Appear | Vanish
    // the module
    | Drift(b: bool)

  predicate Enabled(s: State, x: Step) {
    match x
    case WriteFx(_) => true
    case FlagFx => s.midFx > 0
    case WriteMode(_) => true
    case FlagMode => s.midMode > 0
    case ClearFx => s.pendingFx && s.sendFx.Idle?
    case ReadFx => s.sendFx.Cleared?
    case SendFx => s.sendFx.Holding?
    case ClearMode => s.pendingMode && s.sendMode.Idle?
    case ReadMode => s.sendMode.Cleared?
    case SendMode => s.sendMode.Holding?
    case StartCheck => s.sendMode.Idle?
    case StartLight => s.sendFx.Idle?
    case Appear => s.light.Some? && s.amp.Some? && s.sendFx.Idle? && s.sendMode.Idle?
    case Vanish => true
    case Drift(_) => true
  }

  function Apply(s: State, x: Step): State {
    if !Enabled(s, x) then s else
    match x
    case WriteFx(v) => s.(fx := v, midFx := s.midFx + 1)
    case FlagFx => s.(pendingFx := true, midFx := s.midFx - 1)
    case WriteMode(v) => s.(hp := v, midMode := s.midMode + 1)
    case FlagMode => s.(pendingMode := true, midMode := s.midMode - 1)
    case ClearFx => s.(pendingFx := false, sendFx := Cleared)
    case ReadFx => s.(sendFx := Holding(s.fx))
    case SendFx => s.(light := Some(s.sendFx.value), sendFx := Idle)
    case ClearMode => s.(pendingMode := false, sendMode := Cleared)
    case ReadMode => s.(sendMode := Holding(s.hp))
    case SendMode => s.(amp := Some(s.sendMode.value), ampReg := s.sendMode.value, sendMode := Idle)
    case StartCheck => s.(sendMode := Cleared)
    case StartLight => s.(sendFx := Cleared)
    case Appear => s.(present := true)
    case Vanish => s.(present := false)
    case Drift(b) => s.(ampReg := b)
  }

  function Run(s: State, xs: seq<Step>): State {
    if xs == [] then s else Apply(Run(s, Front(xs)), Last(xs))
  }

  /** A value that was read or sent is right, or a correction is on its way. */
  predicate RightOrComing(value: bool, setting: bool, pending: bool, mid: nat) {
    value == setting || pending || mid > 0
  }

  predicate FxOk(s: State) {
    && (s.sendFx.Holding? ==> RightOrComing(s.sendFx.value, s.fx, s.pendingFx, s.midFx))
    && (s.light.Some? && s.sendFx.Idle? ==> RightOrComing(s.light.value, s.fx, s.pendingFx, s.midFx))
  }

  predicate ModeOk(s: State) {
    && (s.sendMode.Holding? ==> RightOrComing(s.sendMode.value, s.hp, s.pendingMode, s.midMode))
    && (s.amp.Some? && s.sendMode.Idle? ==> RightOrComing(s.amp.value, s.hp, s.pendingMode, s.midMode))
  }

  predicate Inv(s: State) {
    FxOk(s) && ModeOk(s) && (s.present ==> s.light.Some? && s.amp.Some?)
  }

  /** The amp bit in the module itself is right, or about to be corrected. */
  predicate AmpRegOk(s: State) {
    s.sendMode.Idle? ==> RightOrComing(s.ampReg, s.hp, s.pendingMode, s.midMode)
  }

  lemma ApplyKeepsInv(s: State, x: Step)
    requires Inv(s)
    ensures Inv(Apply(s, x))
    ensures AmpRegOk(s) && !x.Drift? ==> AmpRegOk(Apply(s, x))
  {
  }

  lemma {:induction false} RunKeepsInv(s: State, xs: seq<Step>)
    requires Inv(s)
    ensures Inv(Run(s, xs))
    ensures AmpRegOk(s) && (forall i :: 0 <= i < |xs| ==> !xs[i].Drift?) ==> AmpRegOk(Run(s, xs))
  {
    if xs != [] {
      RunKeepsInv(s, Front(xs));
      ApplyKeepsInv(Run(s, Front(xs)), Last(xs));
    }
  }

  /** Nothing sent yet, no flag raised, no module. */
  predicate Initial(s: State) {
    s.light.None? && s.amp.None? && s.sendFx.Idle? && s.sendMode.Idle? && !s.present
  }

  /** No writer and no send is half-way. */
  predicate Quiescent(s: State) {
    s.midFx == 0 && s.midMode == 0 && s.sendFx.Idle? && s.sendMode.Idle?
  }

  /** The main result: after any interleaving, while the module is present and nothing is
      half-way, the last light sent equals the OutFX state or its flag is up, and the last
      amp bit sent equals the output type or its flag is up. No update is ever lost. */
  lemma NoUpdateIsLost(s: State, xs: seq<Step>)
    requires Initial(s)
    ensures var r := Run(s, xs);
            r.present && Quiescent(r) ==>
              && (r.light == Some(r.fx) || r.pendingFx)
              && (r.amp == Some(r.hp) || r.pendingMode)
  {
    RunKeepsInv(s, xs);
  }

  lemma RunSnoc(s: State, xs: seq<Step>, x: Step)
    ensures Run(s, xs + [x]) == Apply(Run(s, xs), x)
  {
    assert Front(xs + [x]) == xs;
  }

  /** What others may do between two steps of the service. */
  predicate ByOthers(xs: seq<Step>) {
    forall i :: 0 <= i < |xs| ==> xs[i].WriteFx? || xs[i].FlagFx? || xs[i].WriteMode? || xs[i].FlagMode?
  }

  /** Between s and r only writers were at work: a value v that was right when it was read
      at s stays right or has a correction coming, and nothing of the service's changed. */
  predicate OnlyWriters(s: State, r: State, v: bool) {
    && (RightOrComing(v, s.hp, s.pendingMode, s.midMode) ==> RightOrComing(v, r.hp, r.pendingMode, r.midMode))
    && r.sendFx == s.sendFx && r.sendMode == s.sendMode && r.light == s.light && r.amp == s.amp
    && r.ampReg == s.ampReg && r.present == s.present
    && (s.pendingMode ==> r.pendingMode) && (s.pendingFx ==> r.pendingFx)
  }

  lemma OneWriter(s: State, r: State, x: Step, v: bool)
    requires ByOthers([x]) && OnlyWriters(s, r, v)
    ensures OnlyWriters(s, Apply(r, x), v)
  {
    assert [x][0] == x;
  }

  lemma {:induction false} OthersKeep(s: State, xs: seq<Step>, v: bool)
    requires ByOthers(xs)
    ensures OnlyWriters(s, Run(s, xs), v)
  {
    hide Apply;
    if xs != [] {
      OthersKeep(s, Front(xs), v);
      OneWriter(s, Run(s, Front(xs)), Last(xs), v);
    }
  }

  /** Right after a send the module's bit is the one last sent. */
  lemma SentAmpIsRight(s: State)
    requires Inv(s) && s.sendMode.Idle? && s.amp == Some(s.ampReg)
    ensures AmpRegOk(s)
  {
  }

  lemma OnlyWritersWere(s: State, xs: seq<Step>)
    requires ByOthers(xs)
    ensures forall v :: OnlyWriters(s, Run(s, xs), v)
  {
    forall v
      ensures OnlyWriters(s, Run(s, xs), v)
    {
      OthersKeep(s, xs, v);
    }
  }

  lemma WritersKeepAmp(s: State, x: Step)
    requires x.WriteFx? || x.FlagFx? || x.WriteMode? || x.FlagMode?
    ensures AmpRegOk(s) ==> AmpRegOk(Apply(s, x))
  {
  }

  lemma StillOnlyWriters(s: State, r: State, q: State, v: bool)
    requires OnlyWriters(s, r, v) && OnlyWriters(r, q, v)
    ensures OnlyWriters(s, q, v) && r.ampReg == s.ampReg
  {
  }

  /** The output type read at s agreed with the module's bit. */
  lemma CheckedAmpIsRight(s: State, t: State)
    requires OnlyWriters(s, t, s.hp) && s.ampReg == s.hp
    ensures AmpRegOk(t)
  {
  }

  /** What happens around one run of the service: whether polling is on and initialisation
      succeeds, what the module answers, which buttons were pressed, and what writers do
      at each point where the service can be overtaken. */
  datatype Tick = Tick(poll: bool, initOk: bool, keepalive: bool, regsAnswer: bool, fxPress: bool, outPress: bool,
                       others: nat -> seq<Step>)

  ghost predicate Fair(t: Tick) {
    forall k :: ByOthers(t.others(k))
  }

  // ---- what one run of the service does -------------------------------------------------------

  /** Read the setting and send the light, overtaken by writers. */
  function LightSent(s: State, between: seq<Step>, after: seq<Step>): State {
    Apply(Run(Apply(Run(s, between), ReadFx), after), SendFx)
  }

  /** Read the output type and set the amp bit. */
  function AmpSent(s: State, between: seq<Step>, after: seq<Step>): State {
    Apply(Run(Apply(Run(s, between), ReadMode), after), SendMode)
  }

  /** The periodic check: the output type is read first, then the module's register. */
  function Checked(s: State, t: Tick): State {
    var read := Run(s, t.others(3));
    var s2 := Run(read, t.others(4));
    if t.regsAnswer && read.ampReg != s.hp then AmpSent(Apply(s2, StartCheck), t.others(1), t.others(2)) else s2
  }

  function ModeServed(s: State, t: Tick, tenth: bool): State {
    var s0 := Run(s, t.others(0));
    if s0.pendingMode then AmpSent(Apply(s0, ClearMode), t.others(1), t.others(2))
    else if tenth then Checked(s0, t)
    else s0
  }

  /** A button of the module is a writer too: write, be overtaken, raise the flag. */
  function FxPressed(s: State, t: Tick): State {
    Apply(Run(Apply(s, WriteFx(!s.fx)), t.others(5)), FlagFx)
  }

  function OutPressed(s: State, t: Tick): State {
    Apply(Run(Apply(s, WriteMode(!s.hp)), t.others(6)), FlagMode)
  }

  function ButtonsServed(s: State, t: Tick): State {
    var s1 := if t.fxPress then FxPressed(s, t) else s;
    if t.outPress then OutPressed(s1, t) else s1
  }

  function FxServed(s: State, t: Tick): State {
    var s0 := Run(s, t.others(7));
    if s0.pendingFx then LightSent(Apply(s0, ClearFx), t.others(8), t.others(9)) else s0
  }

  function Served(s: State, t: Tick, tenth: bool): State {
    FxServed(ButtonsServed(ModeServed(s, t, tenth), t), t)
  }

  function Initialised(s: State, t: Tick): State {
    var s1 := LightSent(Apply(s, StartLight), t.others(10), t.others(11));
    Apply(AmpSent(Apply(s1, StartCheck), t.others(12), t.others(13)), Appear)
  }

  /** ae9_acm_work_fn: the state, the tick counter and the count of unanswered keepalives. */
  function Worked(s: State, tick: nat, dead: nat, t: Tick): (State, nat, nat) {
    if !s.present then (if tick % 10 == 0 && t.initOk then Initialised(s, t) else s, tick + 1, dead)
    else if !t.poll then (s, tick, dead)
    else if !t.keepalive && dead + 1 >= 6 then (Apply(s, Vanish), tick + 1, 0)
    else (Served(s, t, (tick + 1) % 10 == 0), tick + 1, if t.keepalive then 0 else dead + 1)
  }

  /** No writer acts during the tick and no button has been pressed. */
  ghost predicate Quiet(t: Tick) {
    !t.fxPress && !t.outPress && forall k :: t.others(k) == []
  }

  /** Somebody takes step x during the tick. */
  ghost predicate TakenDuring(t: Tick, x: Step) {
    exists k :: x in t.others(k)
  }

  /** Progress: one undisturbed tick serves every flag, and what was sent last is then
      exactly what the settings say. */
  lemma QuietTickServesEverything(s: State, t: Tick, tenth: bool)
    requires Inv(s) && s.present && Quiescent(s) && Quiet(t)
    ensures var r := Served(s, t, tenth);
            && !r.pendingFx && !r.pendingMode && r.fx == s.fx && r.hp == s.hp
            && r.light == Some(r.fx) && r.amp == Some(r.hp) && Quiescent(r)
  {
    var m := ModeServed(s, t, tenth);
    QuietModeServed(s, t, tenth);
    assert ButtonsServed(m, t) == m;
    assert Run(m, t.others(7)) == m;
    if m.pendingFx {
      var c := Apply(m, ClearFx);
      assert Run(c, t.others(8)) == c;
      assert Run(Apply(c, ReadFx), t.others(9)) == Apply(c, ReadFx);
    }
  }

  lemma QuietModeServed(s: State, t: Tick, tenth: bool)
    requires Inv(s) && s.present && Quiescent(s) && Quiet(t)
    ensures var r := ModeServed(s, t, tenth);
            && Inv(r) && Quiescent(r) && r.present && !r.pendingMode && r.amp == Some(r.hp)
            && r.fx == s.fx && r.hp == s.hp && r.pendingFx == s.pendingFx && r.light == s.light
  {
    assert Run(s, t.others(0)) == s;
    if s.pendingMode {
      QuietAmpSent(Apply(s, ClearMode), t);
    } else if tenth {
      assert Run(s, t.others(3)) == s && Run(s, t.others(4)) == s;
      QuietAmpSent(Apply(s, StartCheck), t);
    }
  }

  lemma QuietAmpSent(s: State, t: Tick)
    requires Quiet(t) && s.sendMode.Cleared?
    ensures AmpSent(s, t.others(1), t.others(2)) == s.(amp := Some(s.hp), ampReg := s.hp, sendMode := Idle)
  {
    assert Run(s, t.others(1)) == s;
    var r := Apply(s, ReadMode);
    assert Run(r, t.others(2)) == r;
  }

  lemma {:induction false} FlagsNeedSteps(s: State, xs: seq<Step>)
    requires ByOthers(xs)
    ensures FlagFx !in xs && Run(s, xs).pendingFx ==> s.pendingFx
    ensures FlagMode !in xs && Run(s, xs).pendingMode ==> s.pendingMode
    ensures Run(s, xs).sendFx == s.sendFx && Run(s, xs).sendMode == s.sendMode
  {
    if xs != [] {
      hide Apply;
      assert forall x :: x in Front(xs) ==> x in xs;
      assert Last(xs) in xs;
      FlagsNeedSteps(s, Front(xs));
      FlagNeedsStep(Run(s, Front(xs)), Last(xs));
    }
  }

  lemma FlagNeedsStep(s: State, x: Step)
    requires ByOthers([x])
    ensures x != FlagFx && Apply(s, x).pendingFx ==> s.pendingFx
    ensures x != FlagMode && Apply(s, x).pendingMode ==> s.pendingMode
    ensures Apply(s, x).sendFx == s.sendFx && Apply(s, x).sendMode == s.sendMode
  {
    assert [x][0] == x;
  }

  /** A flag is up, or a writer is about to raise it. */
  predicate FxComing(s: State) {
    s.midFx > 0 || s.pendingFx
  }

  predicate ModeComing(s: State) {
    s.midMode > 0 || s.pendingMode
  }

  lemma WriterFlagsOne(s: State, x: Step)
    requires ByOthers([x])
    ensures FxComing(s) ==> FxComing(Apply(s, x))
    ensures ModeComing(s) ==> ModeComing(Apply(s, x))
    ensures !x.WriteFx? ==> Apply(s, x).fx == s.fx
    ensures !x.WriteMode? ==> Apply(s, x).hp == s.hp
  {
    assert [x][0] == x;
  }

  /** A writer that has written and not yet flagged can only be overtaken by its flag. */
  lemma {:induction false} WriterFlags(s: State, xs: seq<Step>)
    requires ByOthers(xs)
    ensures FxComing(s) ==> FxComing(Run(s, xs))
    ensures ModeComing(s) ==> ModeComing(Run(s, xs))
  {
    if xs != [] {
      hide Apply, FxComing, ModeComing;
      WriterFlags(s, Front(xs));
      WriterFlagsOne(Run(s, Front(xs)), Last(xs));
    }
  }

  lemma {:induction false} UnwrittenStays(s: State, xs: seq<Step>)
    requires ByOthers(xs)
    ensures (forall v :: WriteFx(v) !in xs) ==> Run(s, xs).fx == s.fx
    ensures (forall v :: WriteMode(v) !in xs) ==> Run(s, xs).hp == s.hp
  {
    if xs != [] {
      hide Apply;
      assert forall x :: x in Front(xs) ==> x in xs;
      assert Last(xs) in xs;
      UnwrittenStays(s, Front(xs));
      WriterFlagsOne(Run(s, Front(xs)), Last(xs));
    }
  }

  /** A pressed button toggles its setting, unless another writer comes right behind it, and
      its flag is up afterwards. */
  lemma PressTogglesAndFlags(s: State, t: Tick)
    requires Fair(t)
    ensures FxPressed(s, t).pendingFx && ((forall v :: WriteFx(v) !in t.others(5)) ==> FxPressed(s, t).fx == !s.fx)
    ensures OutPressed(s, t).pendingMode && ((forall v :: WriteMode(v) !in t.others(6)) ==> OutPressed(s, t).hp == !s.hp)
  {
    WriterFlags(Apply(s, WriteFx(!s.fx)), t.others(5));
    WriterFlags(Apply(s, WriteMode(!s.hp)), t.others(6));
    UnwrittenStays(Apply(s, WriteFx(!s.fx)), t.others(5));
    UnwrittenStays(Apply(s, WriteMode(!s.hp)), t.others(6));
  }

  /** With writers at work: every flag that is up after a tick was raised during this tick,
      by a writer or a button. Nothing that was flagged before is left unserved. */
  lemma FlagsAreNew(s: State, t: Tick, tenth: bool)
    requires s.sendFx.Idle? && s.sendMode.Idle? && Fair(t)
    ensures Served(s, t, tenth).pendingFx ==> t.fxPress || TakenDuring(t, FlagFx)
    ensures Served(s, t, tenth).pendingMode ==> t.outPress || TakenDuring(t, FlagMode)
  {
    var m := ModeServed(s, t, tenth);
    var b := ButtonsServed(m, t);
    ModeServedFlags(s, t, tenth);
    ButtonsFlags(m, t);
    FxServedFlags(b, t);
  }

  lemma ModeServedFlags(s: State, t: Tick, tenth: bool)
    requires s.sendFx.Idle? && s.sendMode.Idle? && Fair(t)
    ensures var r := ModeServed(s, t, tenth);
            r.sendFx.Idle? && r.sendMode.Idle? && (r.pendingMode ==> TakenDuring(t, FlagMode))
  {
    hide Fair, TakenDuring;
    OthersFlags(s, t, 0);
    var s0 := Run(s, t.others(0));
    if s0.pendingMode {
      AmpSentFlags(Apply(s0, ClearMode), t);
    } else if tenth {
      OthersFlags(s0, t, 3);
      OthersFlags(Run(s0, t.others(3)), t, 4);
      AmpSentFlags(Apply(Run(Run(s0, t.others(3)), t.others(4)), StartCheck), t);
    }
  }

  /** What the writers of one gap can do to the flags. */
  lemma OthersFlags(s: State, t: Tick, k: nat)
    requires Fair(t)
    ensures var r := Run(s, t.others(k));
            && r.sendFx == s.sendFx && r.sendMode == s.sendMode
            && (r.pendingFx ==> s.pendingFx || TakenDuring(t, FlagFx))
            && (r.pendingMode ==> s.pendingMode || TakenDuring(t, FlagMode))
  {
    FlagsNeedSteps(s, t.others(k));
  }

  lemma AmpSentFlags(s: State, t: Tick)
    requires s.sendFx.Idle? && s.sendMode.Cleared? && Fair(t)
    ensures var r := AmpSent(s, t.others(1), t.others(2));
            r.sendFx.Idle? && r.sendMode.Idle? && (r.pendingMode ==> s.pendingMode || TakenDuring(t, FlagMode))
  {
    hide Fair, TakenDuring;
    OthersFlags(s, t, 1);
    OthersFlags(Apply(Run(s, t.others(1)), ReadMode), t, 2);
  }

  lemma ButtonsFlags(s: State, t: Tick)
    requires s.sendFx.Idle? && s.sendMode.Idle? && Fair(t)
    ensures var r := ButtonsServed(s, t);
            && r.sendFx.Idle? && r.sendMode.Idle?
            && (r.pendingMode ==> s.pendingMode || t.outPress || TakenDuring(t, FlagMode))
  {
    hide Fair, TakenDuring;
    OthersFlags(Apply(s, WriteFx(!s.fx)), t, 5);
    var s1 := if t.fxPress then FxPressed(s, t) else s;
    OthersFlags(Apply(s1, WriteMode(!s1.hp)), t, 6);
  }

  lemma FxServedFlags(s: State, t: Tick)
    requires s.sendFx.Idle? && s.sendMode.Idle? && Fair(t)
    ensures var r := FxServed(s, t);
            && (r.pendingFx ==> TakenDuring(t, FlagFx))
            && (r.pendingMode ==> s.pendingMode || TakenDuring(t, FlagMode))
  {
    hide Fair, TakenDuring;
    OthersFlags(s, t, 7);
    var c := Apply(Run(s, t.others(7)), ClearFx);
    OthersFlags(c, t, 8);
    OthersFlags(Apply(Run(c, t.others(8)), ReadFx), t, 9);
  }

  /** Nobody but the buttons writes the OutFX state or the output type during the tick. */
  ghost predicate Unwritten(t: Tick) {
    forall k, v :: WriteFx(v) !in t.others(k) && WriteMode(v) !in t.others(k)
  }

  /** What the writers of one gap leave alone. */
  lemma GapKeepsSettings(s: State, t: Tick, k: nat)
    requires Fair(t) && Unwritten(t)
    ensures Run(s, t.others(k)).fx == s.fx && Run(s, t.others(k)).hp == s.hp
  {
    UnwrittenStays(s, t.others(k));
  }

  lemma ModeServedKeepsSettings(s: State, t: Tick, tenth: bool)
    requires Fair(t) && Unwritten(t)
    ensures ModeServed(s, t, tenth).fx == s.fx && ModeServed(s, t, tenth).hp == s.hp
  {
    hide Fair, Unwritten;
    var s0 := Run(s, t.others(0));
    GapKeepsSettings(s, t, 0);
    if s0.pendingMode {
      AmpSentKeepsSettings(Apply(s0, ClearMode), t);
    } else if tenth {
      GapKeepsSettings(s0, t, 3);
      GapKeepsSettings(Run(s0, t.others(3)), t, 4);
      AmpSentKeepsSettings(Apply(Run(Run(s0, t.others(3)), t.others(4)), StartCheck), t);
    }
  }

  lemma AmpSentKeepsSettings(s: State, t: Tick)
    requires Fair(t) && Unwritten(t)
    ensures var r := AmpSent(s, t.others(1), t.others(2)); r.fx == s.fx && r.hp == s.hp
  {
    hide Fair, Unwritten;
    GapKeepsSettings(s, t, 1);
    GapKeepsSettings(Apply(Run(s, t.others(1)), ReadMode), t, 2);
  }

  lemma FxServedKeepsSettings(s: State, t: Tick)
    requires Fair(t) && Unwritten(t)
    ensures FxServed(s, t).fx == s.fx && FxServed(s, t).hp == s.hp
  {
    hide Fair, Unwritten;
    GapKeepsSettings(s, t, 7);
    var c := Apply(Run(s, t.others(7)), ClearFx);
    GapKeepsSettings(c, t, 8);
    GapKeepsSettings(Apply(Run(c, t.others(8)), ReadFx), t, 9);
  }

  lemma ButtonsServedToggle(s: State, t: Tick)
    requires Fair(t) && Unwritten(t)
    ensures var r := ButtonsServed(s, t); r.fx == (s.fx != t.fxPress) && r.hp == (s.hp != t.outPress)
  {
    hide Fair, Unwritten;
    GapKeepsSettings(Apply(s, WriteFx(!s.fx)), t, 5);
    var s1 := if t.fxPress then FxPressed(s, t) else s;
    GapKeepsSettings(Apply(s1, WriteMode(!s1.hp)), t, 6);
  }

  /** A tick changes the settings by its buttons alone. */
  lemma ButtonsToggle(s: State, t: Tick, tenth: bool)
    requires Fair(t) && Unwritten(t)
    ensures Served(s, t, tenth).fx == (s.fx != t.fxPress) && Served(s, t, tenth).hp == (s.hp != t.outPress)
  {
    hide ModeServed, ButtonsServed, FxServed, Fair, Unwritten;
    ModeServedKeepsSettings(s, t, tenth);
    ButtonsServedToggle(ModeServed(s, t, tenth), t);
    FxServedKeepsSettings(ButtonsServed(ModeServed(s, t, tenth), t), t);
  }

  /** What serving a present module comes to. */
  lemma ServedFacts(s: State, t: Tick, tenth: bool)
    requires Inv(s) && s.present && s.sendFx.Idle? && s.sendMode.Idle? && Fair(t)
    ensures var r := Served(s, t, tenth);
            && (r.pendingFx ==> t.fxPress || TakenDuring(t, FlagFx))
            && (r.pendingMode ==> t.outPress || TakenDuring(t, FlagMode))
            && (Unwritten(t) ==> r.fx == (s.fx != t.fxPress) && r.hp == (s.hp != t.outPress))
            && (Quiescent(s) && Quiet(t) ==> !r.pendingFx && !r.pendingMode && r.light == Some(s.fx) && r.amp == Some(s.hp))
  {
    hide Served, Inv, Fair, TakenDuring, Unwritten, Quiet;
    FlagsAreNew(s, t, tenth);
    if Unwritten(t) {
      ButtonsToggle(s, t, tenth);
    }
    if Quiescent(s) && Quiet(t) {
      QuietTickServesEverything(s, t, tenth);
    }
  }

  /** How many keepalives in a row have gone unanswered at the end of ts. */
  function Unanswered(ts: seq<Tick>): nat {
    if ts == [] || Last(ts).keepalive then 0 else 1 + Unanswered(Front(ts))
  }

  lemma UnansweredSnoc(ts: seq<Tick>, t: Tick)
    ensures Unanswered(ts + [t]) == if t.keepalive then 0 else Unanswered(ts) + 1
  {
    assert Front(ts + [t]) == ts;
  }

  // ---- the service in place ----------------------------------------------------------------

  class AcmService {
    var fxEnabled: bool
    var headphone: bool
    var pendingFx: bool
    var pendingMode: bool
    var present: bool
    var tick: nat
    var deadTicks: nat
    // the module
    var ampReg: bool
    // who is half-way, and what has been sent
    var midFx: nat
    var midMode: nat
    ghost var light: Option<bool>
    ghost var amp: Option<bool>
    ghost var sendFx: Sending
    ghost var sendMode: Sending
    /** Everything that has happened since `start`. */
    ghost const start: State
    ghost var trace: seq<Step>

    ghost function View(): State
      reads this`fxEnabled, this`headphone, this`pendingFx, this`pendingMode, this`midFx, this`midMode, this`light, this`amp,
            this`ampReg, this`sendFx, this`sendMode, this`present
    {
      State(fxEnabled, headphone, pendingFx, pendingMode, midFx, midMode, light, amp, ampReg, sendFx, sendMode, present)
    }

    /** The object is where its history leads. */
    ghost predicate Valid()
      reads this`fxEnabled, this`headphone, this`pendingFx, this`pendingMode, this`midFx, this`midMode, this`light, this`amp,
            this`ampReg, this`sendFx, this`sendMode, this`present, this`trace
    {
      Initial(start) && View() == Run(start, trace) && Inv(View())
    }

    ghost predicate AtRest()
      reads this`fxEnabled, this`headphone, this`pendingFx, this`pendingMode, this`midFx, this`midMode, this`light, this`amp,
            this`ampReg, this`sendFx, this`sendMode, this`present, this`trace
    {
      Valid() && sendFx.Idle? && sendMode.Idle?
    }

    constructor (fx: bool, hp: bool, reg: bool)
      ensures AtRest() && tick == 0 && !present
    {
      fxEnabled, headphone, pendingFx, pendingMode, present := fx, hp, false, false, false;
      tick, deadTicks, ampReg := 0, 0, reg;
      midFx, midMode, light, amp, sendFx, sendMode := 0, 0, None, None, Idle, Idle;
      start := State(fx, hp, false, false, 0, 0, None, None, reg, Idle, Idle, false);
      trace := [];
    }

    /** The history grows by one step; the caller has changed the fields accordingly. */
    ghost method Record(s: State, x: Step)
      requires Initial(start) && s == Run(start, trace) && Inv(s) && View() == Apply(s, x)
      modifies this`trace
      ensures Valid() && trace == old(trace) + [x]
      ensures AmpRegOk(s) && !x.Drift? ==> AmpRegOk(View())
    {
      hide Run, Inv, Initial, AmpRegOk, Apply;
      ApplyKeepsInv(s, x);
      RunSnoc(start, trace, x);
      trace := trace + [x];
    }

    /** The steps of a writer; a flag step does nothing when no writer waits to flag. */
    method WriteFxStep(v: bool)
      requires Valid()
      modifies this`fxEnabled, this`midFx, this`trace
      ensures Valid() && View() == Apply(old(View()), WriteFx(v))
    {
      hide Run, Inv, Initial, AmpRegOk;
      ghost var s := View();
      fxEnabled, midFx := v, midFx + 1;
      Record(s, WriteFx(v));
    }

    method FlagFxStep()
      requires Valid()
      modifies this`pendingFx, this`midFx, this`trace
      ensures Valid() && View() == Apply(old(View()), FlagFx)
    {
      hide Run, Inv, Initial, AmpRegOk;
      ghost var s := View();
      if midFx > 0 {
        pendingFx, midFx := true, midFx - 1;
      }
      Record(s, FlagFx);
    }

    method WriteModeStep(v: bool)
      requires Valid()
      modifies this`headphone, this`midMode, this`trace
      ensures Valid() && View() == Apply(old(View()), WriteMode(v))
    {
      hide Run, Inv, Initial, AmpRegOk;
      ghost var s := View();
      headphone, midMode := v, midMode + 1;
      Record(s, WriteMode(v));
    }

    method FlagModeStep()
      requires Valid()
      modifies this`pendingMode, this`midMode, this`trace
      ensures Valid() && View() == Apply(old(View()), FlagMode)
    {
      hide Run, Inv, Initial, AmpRegOk;
      ghost var s := View();
      if midMode > 0 {
        pendingMode, midMode := true, midMode - 1;
      }
      Record(s, FlagMode);
    }

    method Writer(x: Step)
      requires Valid() && (x.WriteFx? || x.FlagFx? || x.WriteMode? || x.FlagMode?)
      modifies this`fxEnabled, this`headphone, this`pendingFx, this`pendingMode, this`midFx, this`midMode, this`trace
      ensures Valid() && View() == Apply(old(View()), x)
    {
      hide Run, Inv, Initial, AmpRegOk, Apply;
      match x {
        case WriteFx(v) => WriteFxStep(v);
        case FlagFx => FlagFxStep();
        case WriteMode(v) => WriteModeStep(v);
        case FlagMode => FlagModeStep();
      }
    }

    /** Any number of writer steps between two steps of the service. */
    method Others(xs: seq<Step>)
      requires Valid() && ByOthers(xs)
      modifies this`fxEnabled, this`headphone, this`pendingFx, this`pendingMode, this`midFx, this`midMode, this`trace
      ensures Valid() && View() == Run(old(View()), xs)
      ensures AmpRegOk(old(View())) ==> AmpRegOk(View())
      ensures forall v :: OnlyWriters(old(View()), View(), v)
    {
      assert xs[..|xs|] == xs;
      RunKeepsInv(View(), xs);
      hide OnlyWriters;
      OnlyWritersWere(View(), xs);
      for i := 0 to |xs|
        invariant Valid() && View() == Run(old(View()), xs[..i])
      {
        assert Front(xs[..i + 1]) == xs[..i];
        Writer(xs[i]);
      }
    }

    /** ae9_acm_set_fx_light(ae9_fx_enabled()): read the setting, then send it. */
    method SendLight(between: seq<Step>, after: seq<Step>)
      requires Valid() && sendFx.Cleared? && sendMode.Idle? && ByOthers(between) && ByOthers(after)
      modifies this`fxEnabled, this`headphone, this`pendingFx, this`pendingMode, this`midFx, this`midMode, this`trace, this`sendFx, this`light
      ensures AtRest() && light.Some?
      ensures View() == LightSent(old(View()), between, after)
      ensures AmpRegOk(old(View())) ==> AmpRegOk(View())
    {
      hide Valid, AmpRegOk, Apply, Run, OnlyWriters;
      Others(between);
      var on := ReadFxStep();
      Others(after);
      SendFxStep(on);
    }

    method ReadFxStep() returns (on: bool)
      requires Valid() && sendFx.Cleared?
      modifies this`sendFx, this`trace
      ensures Valid() && sendFx == Holding(on) && View() == Apply(old(View()), ReadFx)
      ensures AmpRegOk(old(View())) ==> AmpRegOk(View())
    {
      hide Run, Inv, Initial, AmpRegOk;
      ghost var s := View();
      on := fxEnabled;
      sendFx := Holding(on);
      Record(s, ReadFx);
    }

    method SendFxStep(on: bool)
      requires Valid() && sendFx == Holding(on)
      modifies this`sendFx, this`light, this`trace
      ensures Valid() && sendFx.Idle? && light == Some(on) && View() == Apply(old(View()), SendFx)
      ensures AmpRegOk(old(View())) ==> AmpRegOk(View())
    {
      hide Run, Inv, Initial, AmpRegOk;
      ghost var s := View();
      light, sendFx := Some(on), Idle;
      Record(s, SendFx);
    }

    /** ae9_acm_apply_regs: read the output type, then set the amp bit. */
    method SendAmp(between: seq<Step>, after: seq<Step>)
      requires Valid() && sendMode.Cleared? && sendFx.Idle? && ByOthers(between) && ByOthers(after)
      modifies this`fxEnabled, this`headphone, this`pendingFx, this`pendingMode, this`midFx, this`midMode, this`trace, this`sendMode, this`amp, this`ampReg
      ensures AtRest() && amp.Some? && AmpRegOk(View())
      ensures View() == AmpSent(old(View()), between, after)
    {
      hide Valid, AmpRegOk, Apply, Run, OnlyWriters;
      Others(between);
      var hp := ReadModeStep();
      Others(after);
      SendModeStep(hp);
    }

    method ReadModeStep() returns (hp: bool)
      requires Valid() && sendMode.Cleared?
      modifies this`sendMode, this`trace
      ensures Valid() && sendMode == Holding(hp) && View() == Apply(old(View()), ReadMode)
    {
      hide Run, Inv, Initial, AmpRegOk;
      ghost var s := View();
      hp := headphone;
      sendMode := Holding(hp);
      Record(s, ReadMode);
    }

    method SendModeStep(hp: bool)
      requires Valid() && sendMode == Holding(hp)
      modifies this`sendMode, this`amp, this`ampReg, this`trace
      ensures Valid() && sendMode.Idle? && amp == Some(hp) && AmpRegOk(View()) && View() == Apply(old(View()), SendMode)
    {
      hide Run, Inv, Initial, AmpRegOk;
      ghost var s := View();
      amp, ampReg, sendMode := Some(hp), hp, Idle;
      Record(s, SendMode);
      SentAmpIsRight(View());
    }

    // single steps of the service

    method ClearFxFlag()
      requires Valid() && pendingFx && sendFx.Idle?
      modifies this`pendingFx, this`sendFx, this`trace
      ensures Valid() && View() == Apply(old(View()), ClearFx)
      ensures !pendingFx && sendFx == Cleared
      ensures AmpRegOk(old(View())) ==> AmpRegOk(View())
    {
      hide Run, Inv, Initial, AmpRegOk;
      ghost var s := View();
      pendingFx, sendFx := false, Cleared;
      Record(s, ClearFx);
    }

    method ClearModeFlag()
      requires Valid() && pendingMode && sendMode.Idle?
      modifies this`pendingMode, this`sendMode, this`trace
      ensures Valid() && View() == Apply(old(View()), ClearMode)
      ensures !pendingMode && sendMode == Cleared
      ensures AmpRegOk(old(View())) ==> AmpRegOk(View())
    {
      hide Run, Inv, Initial, AmpRegOk;
      ghost var s := View();
      pendingMode, sendMode := false, Cleared;
      Record(s, ClearMode);
    }

    method StartReapply()
      requires Valid() && sendMode.Idle?
      modifies this`sendMode, this`trace
      ensures Valid() && View() == Apply(old(View()), StartCheck)
      ensures sendMode == Cleared
      ensures AmpRegOk(old(View())) ==> AmpRegOk(View())
    {
      hide Run, Inv, Initial, AmpRegOk;
      ghost var s := View();
      sendMode := Cleared;
      Record(s, StartCheck);
    }

    method StartLightSend()
      requires Valid() && sendFx.Idle?
      modifies this`sendFx, this`trace
      ensures Valid() && View() == Apply(old(View()), StartLight)
      ensures sendFx == Cleared
      ensures AmpRegOk(old(View())) ==> AmpRegOk(View())
    {
      hide Run, Inv, Initial, AmpRegOk;
      ghost var s := View();
      sendFx := Cleared;
      Record(s, StartLight);
    }

    method ModuleAppears()
      requires Valid() && light.Some? && amp.Some? && sendFx.Idle? && sendMode.Idle?
      modifies this`present, this`trace
      ensures Valid() && View() == Apply(old(View()), Appear)
      ensures present
      ensures AmpRegOk(old(View())) ==> AmpRegOk(View())
    {
      hide Run, Inv, Initial, AmpRegOk;
      ghost var s := View();
      present := true;
      Record(s, Appear);
    }

    method ModuleVanishes()
      requires Valid()
      modifies this`present, this`trace
      ensures Valid() && View() == Apply(old(View()), Vanish) && View() == old(View()).(present := false)
      ensures AmpRegOk(old(View())) ==> AmpRegOk(View())
    {
      hide Run, Inv, Initial, AmpRegOk;
      ghost var s := View();
      present := false;
      Record(s, Vanish);
    }

    /** ae9_acm_check_regs: if the module answers and its amp bit differs from the output
        type, the bit is put back. */
    method CheckRegs(t: Tick)
      requires AtRest() && Fair(t)
      modifies this`fxEnabled, this`headphone, this`pendingFx, this`pendingMode, this`midFx, this`midMode, this`trace,
               this`sendFx, this`sendMode, this`light, this`amp, this`ampReg
      ensures AtRest() && View() == Checked(old(View()), t)
      ensures AmpRegOk(old(View())) || t.regsAnswer ==> AmpRegOk(View())
    {
      hide Valid, AmpRegOk, OnlyWriters, Apply, Run;
      ghost var s := View();
      var hp := headphone;
      Others(t.others(3));
      ghost var s1 := View();
      var r2 := ampReg;
      Others(t.others(4));
      StillOnlyWriters(s, s1, View(), s.hp);
      if !t.regsAnswer {
        return;
      }
      if r2 != hp {
        StartReapply();
        SendAmp(t.others(1), t.others(2));
      } else {
        CheckedAmpIsRight(s, View());
      }
    }

    /** The part of ae9_acm_init that sends the settings. */
    method Initialise(t: Tick)
      requires AtRest() && Fair(t)
      modifies this`fxEnabled, this`headphone, this`pendingFx, this`pendingMode, this`midFx, this`midMode, this`trace,
               this`sendFx, this`sendMode, this`light, this`amp, this`ampReg, this`present
      ensures AtRest() && present && light.Some? && amp.Some? && AmpRegOk(View())
      ensures View() == Initialised(old(View()), t)
    {
      hide Valid, AmpRegOk, Apply, Run;
      StartLightSend();
      SendLight(t.others(10), t.others(11));
      StartReapply();
      SendAmp(t.others(12), t.others(13));
      ModuleAppears();
    }

    /** The module's buttons: they toggle a setting and raise its flag. */
    method PressFx(t: Tick)
      requires AtRest() && Fair(t)
      modifies this`fxEnabled, this`headphone, this`pendingFx, this`pendingMode, this`midFx, this`midMode, this`trace
      ensures AtRest() && View() == FxPressed(old(View()), t) && pendingFx
      ensures (forall v :: WriteFx(v) !in t.others(5)) ==> fxEnabled == !old(fxEnabled)
      ensures AmpRegOk(old(View())) ==> AmpRegOk(View())
    {
      hide Run, Inv, Initial, AmpRegOk;
      ghost var s := View();
      PressTogglesAndFlags(s, t);
      WritersKeepAmp(s, WriteFx(!fxEnabled));
      WriteFxStep(!fxEnabled);
      Others(t.others(5));
      WritersKeepAmp(View(), FlagFx);
      FlagFxStep();
    }

    method PressOutput(t: Tick)
      requires AtRest() && Fair(t)
      modifies this`fxEnabled, this`headphone, this`pendingFx, this`pendingMode, this`midFx, this`midMode, this`trace
      ensures AtRest() && View() == OutPressed(old(View()), t) && pendingMode
      ensures (forall v :: WriteMode(v) !in t.others(6)) ==> headphone == !old(headphone)
      ensures AmpRegOk(old(View())) ==> AmpRegOk(View())
    {
      hide Run, Inv, Initial, AmpRegOk;
      ghost var s := View();
      PressTogglesAndFlags(s, t);
      WritersKeepAmp(s, WriteMode(!headphone));
      WriteModeStep(!headphone);
      Others(t.others(6));
      WritersKeepAmp(View(), FlagMode);
      FlagModeStep();
    }

    /** The output type: a pending change is applied, else every tenth tick is a check. */
    method ServeMode(t: Tick, tenth: bool)
      requires AtRest() && Fair(t)
      modifies this`fxEnabled, this`headphone, this`pendingFx, this`pendingMode, this`midFx, this`midMode, this`trace,
               this`sendFx, this`sendMode, this`light, this`amp, this`ampReg
      ensures AtRest() && View() == ModeServed(old(View()), t, tenth)
      ensures AmpRegOk(old(View())) ==> AmpRegOk(View())
      ensures tenth && t.regsAnswer ==> AmpRegOk(View())
    {
      hide Valid, AmpRegOk, OnlyWriters, Apply, Run;
      Others(t.others(0));
      if pendingMode {
        ClearModeFlag();
        SendAmp(t.others(1), t.others(2));
      } else if tenth {
        CheckRegs(t);
      }
    }

    method ServeButtons(t: Tick)
      requires AtRest() && Fair(t)
      modifies this`fxEnabled, this`headphone, this`pendingFx, this`pendingMode, this`midFx, this`midMode, this`trace
      ensures AtRest() && View() == ButtonsServed(old(View()), t)
      ensures AmpRegOk(old(View())) ==> AmpRegOk(View())
    {
      hide Valid, AmpRegOk, Fair, FxPressed, OutPressed;
      if t.fxPress {
        PressFx(t);
      }
      if t.outPress {
        PressOutput(t);
      }
    }

    /** The OutFX light. */
    method ServeFx(t: Tick)
      requires AtRest() && Fair(t)
      modifies this`fxEnabled, this`headphone, this`pendingFx, this`pendingMode, this`midFx, this`midMode, this`trace,
               this`sendFx, this`sendMode, this`light, this`amp, this`ampReg
      ensures AtRest() && View() == FxServed(old(View()), t)
      ensures AmpRegOk(old(View())) ==> AmpRegOk(View())
    {
      hide Valid, AmpRegOk, OnlyWriters, Apply, Run;
      Others(t.others(7));
      if pendingFx {
        ClearFxFlag();
        SendLight(t.others(8), t.others(9));
      }
    }

    /** At rest nothing is half-way between flag and send. */
    lemma AtRestMeans()
      requires AtRest()
      ensures Inv(View()) && View().sendFx.Idle? && View().sendMode.Idle?
    {
    }

    /** The part of ae9_acm_work_fn behind the keepalive. */
    method Serve(t: Tick, tenth: bool)
      requires AtRest() && present && Fair(t)
      modifies this`fxEnabled, this`headphone, this`pendingFx, this`pendingMode, this`midFx, this`midMode, this`trace,
               this`sendFx, this`sendMode, this`light, this`amp, this`ampReg
      ensures AtRest() && View() == Served(old(View()), t, tenth)
      ensures AmpRegOk(old(View())) ==> AmpRegOk(View())
      ensures tenth && t.regsAnswer ==> AmpRegOk(View())
      ensures pendingFx ==> t.fxPress || TakenDuring(t, FlagFx)
      ensures pendingMode ==> t.outPress || TakenDuring(t, FlagMode)
      ensures Unwritten(t) ==> fxEnabled == (old(fxEnabled) != t.fxPress) && headphone == (old(headphone) != t.outPress)
      ensures Quiescent(old(View())) && Quiet(t) ==>
                !pendingFx && !pendingMode && light == Some(fxEnabled) && amp == Some(headphone)
    {
      hide Valid, Inv, AmpRegOk, OnlyWriters, Run, Apply, Fair, ModeServed, ButtonsServed, FxServed,
           TakenDuring, Unwritten, Quiescent, Quiet;
      AtRestMeans();
      ServedFacts(View(), t, tenth);
      QuietKeeps(t);
      ServeMode(t, tenth);
      ServeButtons(t);
      ServeFx(t);
    }

    /** ae9_acm_work_fn (the knob and the display do not touch this state). Whatever happens
        around it, it moves along the transition system above.

        An absent module is initialised on every tenth run, and is present with light and amp
        bit sent if that succeeds; nothing else happens to it. A present module is given up
        exactly at the sixth unanswered keepalive in a row. Otherwise it is served: flags
        still up were raised meanwhile, the buttons toggle their settings, and undisturbed
        the light and the amp bit are what the settings say. Once the module's amp bit is
        right it never leaves it wrong without a correction coming, and every tenth tick an
        answering module's amp bit is made right, however it had drifted. */
    method WorkFn(t: Tick)
      requires AtRest() && Fair(t)
      modifies this
      ensures AtRest()
      ensures (View(), tick, deadTicks) == Worked(old(View()), old(tick), old(deadTicks), t)
      ensures !old(present) && old(tick) % 10 == 0 && t.initOk ==> present && light.Some? && amp.Some? && AmpRegOk(View())
      ensures !old(present) && !(old(tick) % 10 == 0 && t.initOk) ==> View() == old(View())
      ensures !old(present) ==> tick == old(tick) + 1 && deadTicks == old(deadTicks)
      ensures old(present) && !t.poll ==> (View(), tick, deadTicks) == (old(View()), old(tick), old(deadTicks))
      ensures old(present) && t.poll ==>
                && tick == old(tick) + 1
                && (present <==> t.keepalive || old(deadTicks) + 1 < 6)
                && deadTicks == (if t.keepalive || !present then 0 else old(deadTicks) + 1)
      ensures old(present) && t.poll && !present ==> View() == old(View()).(present := false)
      ensures old(present) && t.poll && present ==>
                && (pendingFx ==> t.fxPress || TakenDuring(t, FlagFx))
                && (pendingMode ==> t.outPress || TakenDuring(t, FlagMode))
                && (Unwritten(t) ==> fxEnabled == (old(fxEnabled) != t.fxPress) && headphone == (old(headphone) != t.outPress))
                && (Quiescent(old(View())) && Quiet(t) ==>
                      !pendingFx && !pendingMode && light == Some(fxEnabled) && amp == Some(headphone))
      ensures AmpRegOk(old(View())) ==> AmpRegOk(View())
      ensures old(present) && t.poll && t.keepalive && t.regsAnswer && (old(tick) + 1) % 10 == 0 ==> AmpRegOk(View())
    {
      hide Valid, Inv, AmpRegOk, Apply, Run, Fair, Served, Initialised, TakenDuring, Unwritten, Quiescent, Quiet;
      if !present {
        var due := tick % 10 == 0;
        tick := tick + 1;
        if due && t.initOk {
          Initialise(t);
        }
        return;
      }
      if !t.poll {
        return;
      }
      tick := tick + 1;
      if !t.keepalive {
        deadTicks := deadTicks + 1;
        if deadTicks >= 6 {
          deadTicks := 0;
          ModuleVanishes();
          return;
        }
      } else {
        deadTicks := 0;
      }
      Serve(t, tick % 10 == 0);
    }

    /** An absent module that answers is present within ten runs of the service. */
    method RunUntilPresent(ts: seq<Tick>) returns (n: nat)
      requires AtRest() && !present && |ts| == 10
      requires forall i :: 0 <= i < 10 ==> Fair(ts[i]) && ts[i].initOk
      modifies this
      ensures AtRest() && present && light.Some? && amp.Some? && AmpRegOk(View())
      ensures n <= 10
    {
      hide Valid, AmpRegOk, Fair, Worked, Served, TakenDuring, Unwritten, Quiescent, Quiet;
      n := 0;
      OneInTen(tick);
      ghost var due := tick + (if tick % 10 == 0 then 0 else 10 - tick % 10);
      while !present
        invariant AtRest() && n <= 10 && tick == old(tick) + n
        invariant !present ==> tick <= due
        invariant present ==> light.Some? && amp.Some? && AmpRegOk(View())
        decreases !present, due - tick
      {
        WorkFn(ts[n]);
        n := n + 1;
      }
    }

    /** While keepalives are polled for, a module is present up to the sixth unanswered one in
        a row and absent right after it. */
    method PollKeepalives(ts: seq<Tick>)
      requires AtRest() && present && deadTicks == 0
      requires forall i :: 0 <= i < |ts| ==> Fair(ts[i]) && ts[i].poll && Unanswered(ts[..i]) < 6
      modifies this
      ensures AtRest()
      ensures present <==> Unanswered(ts) < 6
    {
      hide Valid, AmpRegOk, Fair, Unanswered, Worked, Served, TakenDuring, Unwritten, Quiescent, Quiet;
      assert ts[..|ts|] == ts;
      NoneUnanswered();
      for i := 0 to |ts|
        invariant AtRest() && (present <==> Unanswered(ts[..i]) < 6)
        invariant present ==> deadTicks == Unanswered(ts[..i])
      {
        assert ts[..i + 1] == ts[..i] + [ts[i]];
        UnansweredSnoc(ts[..i], ts[i]);
        WorkFn(ts[i]);
      }
    }

    /** A drifted amp bit is corrected within ten ticks: if the module stays present and
        answers, then after ten runs of the service its bit is right or a correction is
        flagged, no matter what it was at the start and what the writers did meanwhile. */
    method TenTicks(ts: seq<Tick>)
      requires AtRest() && present && |ts| == 10
      requires forall i :: 0 <= i < 10 ==> Fair(ts[i]) && ts[i].poll && ts[i].keepalive && ts[i].regsAnswer
      modifies this
      ensures AtRest() && present && AmpRegOk(View())
    {
      hide Valid, AmpRegOk, Fair, Worked, Served, TakenDuring, Unwritten, Quiescent, Quiet;
      for i := 0 to 10
        invariant AtRest() && present && tick == old(tick) + i
        invariant i >= 10 - old(tick) % 10 ==> AmpRegOk(View())
      {
        OneInTen(old(tick));
        WorkFn(ts[i]);
      }
    }
  }

  lemma NoneUnanswered()
    ensures Unanswered([]) == 0
  {
  }

  /** A tick nobody disturbs is one in which nobody writes. */
  lemma QuietKeeps(t: Tick)
    ensures Quiet(t) ==> Unwritten(t) && !t.fxPress && !t.outPress
  {
  }

  lemma OneInTen(n: nat)
    ensures 1 <= 10 - n % 10 <= 10 && (n + (10 - n % 10)) % 10 == 0
  {
  }
}
