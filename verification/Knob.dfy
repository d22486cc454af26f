/** The volume knob of the AE-9 control module: detents go through an accumulator, two of
    them make one volume point, and a change of direction drops the remainder. */
module Knob {
  import opened Words

  /** C's division by two truncates toward zero. */
  function Half(x: int): int {
    if x >= 0 then x / 2 else -((-x) / 2)
  }

  function Clamp(v: int): int {
    if v < 0 then 0 else if v > 99 then 99 else v
  }

  /** Accumulator, last direction (0 is louder, anything else quieter), master level. */
  datatype State = State(acc: int, dir: u8, level: int)

  /** What one poll of the module reports. */
  datatype Poll = Poll(dir: u8, steps: u8)

  /** ae9_acm_knob on a complete reply. */
  function Turn(k: State, p: Poll): State {
    if p.steps == 0 then k
    else
      var reversed := k.dir != p.dir;
      var acc0 := if reversed then Half(k.acc) * 2 else k.acc;
      var steps := if reversed && p.steps == 1 then 2 else p.steps;
      var acc1 := acc0 + (if p.dir != 0 then -steps else steps);
      var delta := Half(acc1);
      State(acc1 - delta * 2, p.dir, if delta == 0 then k.level else Clamp(k.level + delta))
  }

  function TurnAll(k: State, ps: seq<Poll>): State {
    if ps == [] then k else Turn(TurnAll(k, Front(ps)), Last(ps))
  }

  function Sign(dir: u8): int {
    if dir == 0 then 1 else -1
  }

  /** The accumulator holds at most one detent, counted in the last direction. */
  predicate Inv(k: State) {
    0 <= k.acc * Sign(k.dir) <= 1 && 0 <= k.level <= 99
  }

  lemma TurnKeepsInv(k: State, p: Poll)
    requires Inv(k)
    ensures Inv(Turn(k, p))
    ensures if p.dir == 0 then Turn(k, p).level >= k.level else Turn(k, p).level <= k.level
  {
  }

  /** A poll without detents changes nothing, not even the latched direction; any other
      latches its direction. */
  lemma TurnLatches(k: State, p: Poll)
    ensures if p.steps == 0 then Turn(k, p) == k else Turn(k, p).dir == p.dir
  {
  }

  lemma LevelMayStay(k: State, r: State)
    requires Inv(k) && Inv(r)
    ensures Inv(r.(level := k.level))
  {
  }

  /** In every run of polls the accumulator stays in {-1, 0, 1}. */
  lemma {:induction false} AccumulatorStaysSmall(k: State, ps: seq<Poll>)
    requires Inv(k)
    ensures Inv(TurnAll(k, ps)) && -1 <= TurnAll(k, ps).acc <= 1
  {
    if ps != [] {
      AccumulatorStaysSmall(k, Front(ps));
      TurnKeepsInv(TurnAll(k, Front(ps)), Last(ps));
    }
  }

  function Detents(ps: seq<Poll>): nat {
    if ps == [] then 0 else Detents(Front(ps)) + Last(ps).steps
  }

  predicate AllIn(ps: seq<Poll>, dir: u8) {
    forall i :: 0 <= i < |ps| ==> ps[i].dir == dir
  }

  /** Moving by a and then by b more in the same direction, clamping in between, is moving
      by their sum. */
  lemma ClampComposes(v: int, a: int, b: int)
    requires 0 <= v <= 99 && ((a >= 0 && b >= 0) || (a <= 0 && b <= 0))
    ensures Clamp(Clamp(v + a) + b) == Clamp(v + a + b)
  {
  }

  /** Where `total` detents in the latched direction lead: two to a point, the odd one kept. */
  function Moved(k: State, total: nat): State {
    State(total % 2 * Sign(k.dir), k.dir, Clamp(k.level + total / 2 * Sign(k.dir)))
  }

  lemma TurnIsMoved(k: State, p: Poll)
    requires Inv(k) && p.dir == k.dir
    ensures Turn(k, p) == Moved(k, k.acc * Sign(k.dir) + p.steps)
  {
  }

  lemma MovedComposes(k: State, m: nat, n: nat)
    requires Inv(k)
    ensures Inv(Moved(k, m))
    ensures Moved(Moved(k, m), m % 2 + n) == Moved(k, m + n)
    ensures Moved(k, m).acc * Sign(k.dir) == m % 2 && Moved(k, m).dir == k.dir
  {
    HalvesAdd(m, n);
    ClampComposes(k.level, m / 2 * Sign(k.dir), (m % 2 + n) / 2 * Sign(k.dir));
  }

  lemma HalvesAdd(m: nat, n: nat)
    ensures (m + n) / 2 == m / 2 + (m % 2 + n) / 2 && (m + n) % 2 == (m % 2 + n) % 2
  {
  }

  /** Once a direction is latched, N further detents move the level to the clamped sum of
      level and whole points, floor((|acc| + N) / 2), and leave the odd detent over. */
  lemma {:induction false} DetentsAddUp(k: State, ps: seq<Poll>)
    requires Inv(k) && AllIn(ps, k.dir)
    ensures TurnAll(k, ps) == Moved(k, k.acc * Sign(k.dir) + Detents(ps))
  {
    hide Turn, Moved;
    if ps == [] {
      NothingMoved(k);
    } else {
      DetentsAddUp(k, Front(ps));
      var m := k.acc * Sign(k.dir) + Detents(Front(ps));
      MovedComposes(k, m, Last(ps).steps);
      TurnIsMoved(Moved(k, m), Last(ps));
    }
  }

  /** The level after N further detents, louder or quieter: one point for every two, counting
      the one left over before, and never past 99 or 0. */
  lemma LevelAfterDetents(k: State, ps: seq<Poll>)
    requires Inv(k) && AllIn(ps, k.dir)
    ensures var points := (Detents(ps) + if k.acc == 0 then 0 else 1) / 2;
            TurnAll(k, ps).level == if k.dir == 0 then Min(99, k.level + points)
                                    else if points > k.level then 0 else k.level - points
  {
    hide TurnAll, Detents, AllIn;
    DetentsAddUp(k, ps);
  }

  lemma NothingMoved(k: State)
    requires Inv(k)
    ensures Moved(k, k.acc * Sign(k.dir)) == k
  {
  }

  /** However the same detents are batched into polls, knob and level end up the same. */
  lemma BatchingDoesNotMatter(k: State, ps: seq<Poll>, qs: seq<Poll>)
    requires Inv(k) && AllIn(ps, k.dir) && AllIn(qs, k.dir) && Detents(ps) == Detents(qs)
    ensures TurnAll(k, ps) == TurnAll(k, qs)
  {
    hide Moved, TurnAll, Detents, AllIn;
    DetentsAddUp(k, ps);
    DetentsAddUp(k, qs);
  }

  /** A reversal drops what was accumulated, and even a single detent moves the level. */
  lemma ReversalMovesAtOnce(k: State, p: Poll)
    requires Inv(k) && p.dir != k.dir && p.steps > 0
    ensures var n := if p.steps == 1 then 2 else p.steps;
            Turn(k, p) == State(n % 2 * Sign(p.dir), p.dir, Clamp(k.level + n / 2 * Sign(p.dir)))
  {
    assert Half(k.acc) == 0;
  }

  /** The knob fields of the codec. */
  class KnobReader {
    var acc: int
    var dir: u8
    var level: int

    ghost function View(): State
      reads this
    {
      State(acc, dir, level)
    }

    constructor (level: int)
      requires 0 <= level <= 99
      ensures View() == State(0, 0, level) && Inv(View())
    {
      acc, dir, this.level := 0, 0, level;
    }

    /** ae9_acm_knob: a reply that is too short or malformed changes nothing; without a mixer
        control to set, the detents are counted but the level stays. */
    method PollKnob(rx: seq<u8>, settable: bool)
      requires Inv(View())
      modifies this
      ensures Inv(View())
      ensures View() == if |rx| < 5 || rx[0] != 0xF0 then old(View()) else
                var k := Turn(old(View()), Poll(rx[3], rx[4]));
                if settable then k else k.(level := old(level))
    {
      if |rx| < 5 || rx[0] != 0xF0 {
        return;
      }
      assert Inv(Turn(View(), Poll(rx[3], rx[4]))) by {
        TurnKeepsInv(View(), Poll(rx[3], rx[4]));
      }
      LevelMayStay(View(), Turn(View(), Poll(rx[3], rx[4])));
      hide Inv, Half, Clamp;
      var d, steps := rx[3], rx[4];
      if steps == 0 {
        return;
      }
      if dir != d {
        acc := Half(acc) * 2;
        if steps == 1 {
          steps := 2;
        }
        dir := d;
      }
      acc := if d != 0 then acc - steps else acc + steps;
      var delta := Half(acc);
      acc := acc - delta * 2;
      if delta == 0 {
        return;
      }
      var v := Clamp(level + delta);
      if !settable {
        return;
      }
      level := v;
    }
  }
}
