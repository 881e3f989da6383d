/**
 The two sound sources, each written twice: a loop over samples and closed forms over
 whole blocks. Over the reals the closed forms are the loop, except for the peak
 follower, where the two are different and close.
 */
module Audio {
  import opened Reals

  // ---------------------------------------------------------- small arithmetic

  function Abs(x: real): (r: real)
    ensures r >= 0.0 && (r == x || r == -x)
  {
    if x < 0.0 then -x else x
  }

  /** A product, named so that proofs can keep it whole. */
  function Product(a: real, b: real): real {
    a * b
  }

  function Power(d: real, k: nat): real {
    if k == 0 then 1.0 else Product(d, Power(d, k - 1))
  }

  lemma {:induction false} PowerPositive(d: real, k: nat)
    requires d > 0.0
    ensures Power(d, k) > 0.0
  {
    if k > 0 {
      PowerPositive(d, k - 1);
    }
  }

  lemma ProductSign(p: real, d: real)
    requires p >= 0.0 && d >= 0.0
    ensures Product(p, d) >= 0.0
  {}

  lemma ProductOrder(p: real, a: real, b: real)
    requires p >= 0.0 && a <= b
    ensures Product(p, a) <= Product(p, b)
  {
    ProductSign(p, b - a);
  }

  lemma ScaleMax(p: real, a: real, b: real)
    requires p > 0.0
    ensures Product(p, Max(a, b)) == Max(Product(p, a), Product(p, b))
  {
    hide Product;
    if a > b {
      ProductOrder(p, b, a);
    } else {
      ProductOrder(p, a, b);
    }
  }

  lemma Unscale(p: real, a: real)
    requires p > 0.0
    ensures Product(p, a / p) == a
  {}

  lemma Reassociate(a: real, b: real, c: real)
    ensures Product(Product(a, b), c) == Product(a, Product(b, c))
  {}

  function Times(a: real, k: int): real {
    a * k as real
  }

  lemma TimesNext(a: real, k: int)
    ensures Times(a, 0) == 0.0
    ensures Times(a, k + 1) == Times(a, k) + a
  {}

  lemma {:induction false} TimesPositive(a: real, k: nat)
    requires a >= 0.0
    ensures Times(a, k) >= 0.0
  {}

  // ------------------------------------------------------------ the tone source

  /** One sample's worth of gain ramp. */
  function RampStep(gain: real, target: real, step: real): real {
    if gain < target then Min(target, gain + step)
    else if gain > target then Max(target, gain - step)
    else gain
  }

  function RampLoop(gain: real, target: real, step: real, k: nat): real {
    if k == 0 then gain else RampStep(RampLoop(gain, target, step, k - 1), target, step)
  }

  /** The clipped line that replaces it. */
  function RampLine(gain: real, target: real, step: real, k: nat): real {
    if gain < target then Min(target, gain + Times(step, k))
    else if gain > target then Max(target, gain - Times(step, k))
    else gain
  }

  lemma {:induction false} RampLineIsLoop(gain: real, target: real, step: real, k: nat)
    requires step > 0.0
    ensures RampLoop(gain, target, step, k) == RampLine(gain, target, step, k)
  {
    hide Times;
    if k == 0 {
      TimesNext(step, 0);
    } else {
      RampLineIsLoop(gain, target, step, k - 1);
      TimesNext(step, k - 1);
      TimesPositive(step, k - 1);
    }
  }

  /** The phase advances by a fixed angle and drops a whole turn when it passes one. */
  function PhaseStep(phase: real, angle: real, turn: real): real {
    if phase + angle > turn then phase + angle - turn else phase + angle
  }

  function PhaseLoop(phase: real, angle: real, turn: real, k: nat): real {
    if k == 0 then phase else PhaseStep(PhaseLoop(phase, angle, turn, k - 1), angle, turn)
  }

  function PhaseLine(phase: real, angle: real, k: nat): real {
    phase + Times(angle, k)
  }

  /** How many turns the loop has dropped. */
  function Turns(phase: real, angle: real, turn: real, k: nat): nat {
    if k == 0 then 0
    else Turns(phase, angle, turn, k - 1) + if PhaseLoop(phase, angle, turn, k - 1) + angle > turn then 1 else 0
  }

  /** The loop's phase is the straight one less whole turns; steps of at most a turn keep it within one. */
  lemma {:induction false} PhaseLineIsLoop(phase: real, angle: real, turn: real, k: nat)
    ensures PhaseLoop(phase, angle, turn, k) ==
            PhaseLine(phase, angle, k) - Times(turn, Turns(phase, angle, turn, k))
    ensures 0.0 <= phase <= turn && 0.0 < angle <= turn ==> 0.0 <= PhaseLoop(phase, angle, turn, k) <= turn
  {
    hide Times;
    if k == 0 {
      TimesNext(angle, 0);
      TimesNext(turn, 0);
    } else {
      PhaseLineIsLoop(phase, angle, turn, k - 1);
      TimesNext(angle, k - 1);
      TimesNext(turn, Turns(phase, angle, turn, k - 1));
    }
  }

  /** What the source keeps between blocks. */
  class SineDevice {
    var phase: real
    var gain: real

    /** The loop; a sample is its gain times the sine of its phase. */
    method ReadLoop(n: nat, angle: real, target: real, step: real, turn: real)
      returns (gains: seq<real>, phases: seq<real>)
      modifies this
      ensures |gains| == |phases| == n
      ensures forall k :: 0 <= k < n ==> gains[k] == RampLoop(old(gain), target, step, k + 1)
      ensures forall k :: 0 <= k < n ==>
                phases[k] == if angle > 0.0 then PhaseLoop(old(phase), angle, turn, k + 1) else old(phase)
      ensures gain == RampLoop(old(gain), target, step, n)
      ensures phase == if angle > 0.0 then PhaseLoop(old(phase), angle, turn, n) else old(phase)
    {
      gains, phases := [], [];
      for i := 0 to n
        invariant |gains| == |phases| == i
        invariant gain == RampLoop(old(gain), target, step, i)
        invariant phase == if angle > 0.0 then PhaseLoop(old(phase), angle, turn, i) else old(phase)
        invariant forall k :: 0 <= k < i ==> gains[k] == RampLoop(old(gain), target, step, k + 1)
        invariant forall k :: 0 <= k < i ==>
                    phases[k] == if angle > 0.0 then PhaseLoop(old(phase), angle, turn, k + 1) else old(phase)
      {
        if gain < target {
          gain := Min(target, gain + step);
        } else if gain > target {
          gain := Max(target, gain - step);
        }
        if angle > 0.0 {
          phase := phase + angle;
          if phase > turn {
            phase := phase - turn;
          }
        }
        gains, phases := gains + [gain], phases + [phase];
      }
    }

    /** The block form. */
    method ReadBlock(n: nat, angle: real, target: real, step: real, turn: real)
      returns (gains: seq<real>, phases: seq<real>)
      requires n > 0 && step > 0.0 && turn > 0.0
      modifies this
      ensures |gains| == |phases| == n
      ensures forall k :: 0 <= k < n ==> gains[k] == RampLoop(old(gain), target, step, k + 1)
      ensures forall k :: 0 <= k < n ==>
                phases[k] == if angle > 0.0 then PhaseLine(old(phase), angle, k + 1) else old(phase)
      ensures gain == RampLoop(old(gain), target, step, n)
      ensures phase == if angle > 0.0 then Modulo(PhaseLine(old(phase), angle, n), turn) else old(phase)
    {
      hide Times, Modulo;
      var g, p := gain, phase;
      gains := seq(n, k requires 0 <= k < n => RampLine(g, target, step, k + 1));
      phases := seq(n, k requires 0 <= k < n => if angle > 0.0 then PhaseLine(p, angle, k + 1) else p);
      forall k | 0 <= k < n ensures gains[k] == RampLoop(g, target, step, k + 1) {
        RampLineIsLoop(g, target, step, k + 1);
      }
      if angle > 0.0 {
        phase := Modulo(phases[n - 1], turn);
      }
      gain := gains[n - 1];
    }
  }

  /** The remainder of a positive modulus, as float division leaves it. */
  function Modulo(x: real, turn: real): real
    requires turn > 0.0
  {
    x - Times(turn, (x / turn).Floor)
  }

  lemma Quotient(left: real, turn: real, t: int)
    requires turn > 0.0
    ensures (left + Times(turn, t)) / turn == left / turn + t as real
  {}

  lemma QuotientBounds(left: real, turn: real)
    requires turn > 0.0 && 0.0 <= left <= turn
    ensures 0.0 <= left / turn <= 1.0
    ensures left / turn == 1.0 <==> left == turn
  {
    var q := left / turn;
    assert turn * q == left;
  }

  /** What lies within a turn, after whole turns, is the remainder; a full turn leaves nothing. */
  lemma ModuloOfTurns(x: real, turn: real, t: int, left: real)
    requires turn > 0.0 && x == left + Times(turn, t) && 0.0 <= left <= turn
    ensures Modulo(x, turn) == if left == turn then 0.0 else left
  {
    hide Times;
    Quotient(left, turn, t);
    QuotientBounds(left, turn);
    FloorOfSum(left / turn, t);
    TimesNext(turn, t);
  }

  lemma FloorOfSum(q: real, t: int)
    requires 0.0 <= q <= 1.0
    ensures (q + t as real).Floor == if q == 1.0 then t + 1 else t
  {}

  /** After a block of either form the phases agree, but for a full turn against none. */
  lemma PhasesAgree(phase: real, angle: real, turn: real, n: nat)
    requires 0.0 <= phase <= turn && 0.0 < angle <= turn
    ensures var loop := PhaseLoop(phase, angle, turn, n);
            Modulo(PhaseLine(phase, angle, n), turn) == if loop == turn then 0.0 else loop
  {
    hide Times, Modulo;
    PhaseLineIsLoop(phase, angle, turn, n);
    ModuloOfTurns(PhaseLine(phase, angle, n), turn, Turns(phase, angle, turn, n), PhaseLoop(phase, angle, turn, n));
  }

  // --------------------------------------------------------- the physics source

  const SAMPLE_RATE: nat := 48000
  const FADE_STEP: real := 0.001
  const DECAY: real := 0.99997

  /** A sample before volume and soft clipping: its value, its fade, and the peak it is scaled by. */
  datatype Sample = Sample(x: real, fade: real, env: real)

  /** Where the loop stands within a block. */
  datatype Place = Place(pos: real, fade: real)

  predicate Playable(buf: seq<real>, pos: real) {
    pos.Floor + 1 < |buf|
  }

  /** Linear interpolation between neighbours. */
  function Between(buf: seq<real>, pos: real): real
    requires 0.0 <= pos && Playable(buf, pos)
  {
    var i := pos.Floor;
    var frac := pos - i as real;
    buf[i] * (1.0 - frac) + buf[i + 1] * frac
  }

  function PlaceStep(buf: seq<real>, ratio: real, p: Place): Place {
    if Playable(buf, p.pos) then Place(p.pos + ratio, Min(1.0, p.fade + FADE_STEP))
    else Place(p.pos, Max(0.0, p.fade - FADE_STEP))
  }

  /** The place before sample k. */
  function PlaceAt(buf: seq<real>, ratio: real, p: Place, k: nat): (r: Place)
    requires 0.0 <= p.pos && 0.0 <= ratio
    ensures 0.0 <= r.pos
  {
    if k == 0 then p else PlaceStep(buf, ratio, PlaceAt(buf, ratio, p, k - 1))
  }

  function ValueAt(buf: seq<real>, ratio: real, p: Place, k: nat): real
    requires 0.0 <= p.pos && 0.0 <= ratio
  {
    var pos := PlaceAt(buf, ratio, p, k).pos;
    if Playable(buf, pos) then Between(buf, pos) else 0.0
  }

  /** The loop's peak follower: attack at once, else decay. */
  function FollowStep(env: real, x: real): real {
    if Abs(x) > env then Abs(x) else Product(DECAY, env)
  }

  function Follow(env: real, xs: seq<real>): real {
    if xs == [] then env else FollowStep(Follow(env, xs[..|xs| - 1]), xs[|xs| - 1])
  }

  /** The peak follower as documented: the larger of the sample and the decayed peak. */
  function PeakStep(env: real, x: real): real {
    Max(Abs(x), Product(DECAY, env))
  }

  function Peak(env: real, xs: seq<real>): real {
    if xs == [] then env else PeakStep(Peak(env, xs[..|xs| - 1]), xs[|xs| - 1])
  }

  // ------------------------------------------------------------- block forms

  function Positions(pos: real, ratio: real, n: nat): (ps: seq<real>)
    ensures |ps| == n && forall k :: 0 <= k < n ==> ps[k] == pos + Times(ratio, k)
  {
    seq(n, k requires 0 <= k < n => pos + Times(ratio, k))
  }

  /** How many positions are playable, wherever they stand. */
  function CountPlayable(buf: seq<real>, ps: seq<real>): (m: nat)
    ensures m <= |ps|
  {
    if ps == [] then 0
    else CountPlayable(buf, ps[..|ps| - 1]) + if Playable(buf, ps[|ps| - 1]) then 1 else 0
  }

  function FadeLine(fade: real, m: nat, k: nat): real {
    if k < m then Min(1.0, fade + Times(FADE_STEP, k + 1))
    else
      var top := if m > 0 then Min(1.0, fade + Times(FADE_STEP, m)) else fade;
      Max(0.0, top - Times(FADE_STEP, k - m + 1))
  }

  /** The running maximum of the samples, each divided by its share of the decay. */
  function RunningMax(xs: seq<real>): real
    requires xs != []
  {
    var k := |xs| - 1;
    PowerPositive(DECAY, k);
    var scaled := Abs(xs[k]) / Power(DECAY, k);
    if k == 0 then scaled else Max(RunningMax(xs[..k]), scaled)
  }

  function PeakLine(env: real, xs: seq<real>): real
    requires xs != []
  {
    Product(Power(DECAY, |xs| - 1), Max(RunningMax(xs), Product(DECAY, env)))
  }

  // ------------------------------------------------------------ why they agree

  lemma FloorMonotone(a: real, b: real)
    requires a <= b
    ensures a.Floor <= b.Floor
  {}

  lemma {:induction false} TimesMonotone(a: real, j: nat, k: nat)
    requires a >= 0.0 && j <= k
    ensures Times(a, j) <= Times(a, k)
    decreases k - j
  {
    hide Times;
    if j < k {
      TimesMonotone(a, j, k - 1);
      TimesNext(a, k - 1);
    }
  }

  /** The playable positions come first, so counting them finds where they end. */
  lemma {:induction false} PlayablePrefix(buf: seq<real>, pos: real, ratio: real, n: nat)
    requires 0.0 <= ratio
    ensures var ps := Positions(pos, ratio, n);
            forall k :: 0 <= k < n ==> (Playable(buf, ps[k]) <==> k < CountPlayable(buf, ps))
  {
    hide Times;
    if n > 0 {
      var ps := Positions(pos, ratio, n);
      assert ps[..n - 1] == Positions(pos, ratio, n - 1);
      PlayablePrefix(buf, pos, ratio, n - 1);
      forall k | 0 <= k < n && Playable(buf, ps[n - 1])
        ensures Playable(buf, ps[k])
      {
        TimesMonotone(ratio, k, n - 1);
        FloorMonotone(ps[k], ps[n - 1]);
      }
    }
  }

  function Lesser(a: nat, b: nat): nat {
    if a < b then a else b
  }

  /** The place before sample k, in closed form. */
  lemma {:induction false} PlaceLine(buf: seq<real>, ratio: real, p: Place, n: nat, k: nat)
    requires 0.0 <= p.pos && 0.0 <= ratio && k <= n
    ensures var m := CountPlayable(buf, Positions(p.pos, ratio, n));
            && PlaceAt(buf, ratio, p, k).pos == p.pos + Times(ratio, Lesser(k, m))
            && PlaceAt(buf, ratio, p, k).fade == if k == 0 then p.fade else FadeLine(p.fade, m, k - 1)
  {
    hide Times, Playable, CountPlayable, Positions;
    var ps := Positions(p.pos, ratio, n);
    var m := CountPlayable(buf, ps);
    if k == 0 {
      TimesNext(ratio, 0);
    } else {
      PlaceLine(buf, ratio, p, n, k - 1);
      PlayablePrefix(buf, p.pos, ratio, n);
      TimesNext(ratio, k - 1);
      if k - 1 < m {
        assert ps[k - 1] == p.pos + Times(ratio, k - 1);
        TimesNext(FADE_STEP, k - 1);
      } else {
        StuckBeyond(buf, ratio, p, n, k - 1);
        TimesNext(FADE_STEP, k - 1 - m);
      }
    }
  }

  /** Past the playable samples the position stays at the first that is not. */
  lemma StuckBeyond(buf: seq<real>, ratio: real, p: Place, n: nat, k: nat)
    requires 0.0 <= p.pos && 0.0 <= ratio && k < n
    requires CountPlayable(buf, Positions(p.pos, ratio, n)) <= k
    ensures var m := CountPlayable(buf, Positions(p.pos, ratio, n));
            !Playable(buf, p.pos + Times(ratio, m))
  {
    hide Times, Playable;
    var ps := Positions(p.pos, ratio, n);
    PlayablePrefix(buf, p.pos, ratio, n);
    assert ps[CountPlayable(buf, ps)] == p.pos + Times(ratio, CountPlayable(buf, ps));
  }

  /** The scaled running maximum is the documented recurrence. */
  lemma {:induction false} PeakLineIsPeak(env: real, xs: seq<real>)
    requires xs != []
    ensures PeakLine(env, xs) == Peak(env, xs)
  {
    var k := |xs| - 1;
    var p, ax := Power(DECAY, k), Abs(xs[k]);
    PowerPositive(DECAY, k);
    Unscale(p, ax);
    if k == 0 {
      assert xs[..0] == [];
      ScaleMax(p, ax / p, Product(DECAY, env));
    } else {
      PeakLineIsPeak(env, xs[..k]);
      PeakLineStep(env, xs);
    }
  }

  lemma RescaledMax(d: real, q: real, ax: real, before: real, e: real)
    requires d > 0.0 && q > 0.0 && Product(d, q) > 0.0
    ensures Product(Product(d, q), Max(Max(before, ax / Product(d, q)), e)) ==
            Max(ax, Product(d, Product(q, Max(before, e))))
  {
    hide Max, Product;
    var p := Product(d, q);
    Unscale(p, ax);
    ScaleMax(p, Max(before, ax / p), e);
    ScaleMax(p, before, ax / p);
    ScaleMax(p, before, e);
    Reassociate(d, q, Max(before, e));
    MaxReorder(Product(p, before), ax, Product(p, e));
  }

  lemma MaxReorder(a: real, b: real, c: real)
    ensures Max(Max(a, b), c) == Max(b, Max(a, c))
  {}

  lemma PeakLineStep(env: real, xs: seq<real>)
    requires |xs| >= 2
    ensures var k := |xs| - 1; PeakLine(env, xs) == PeakStep(PeakLine(env, xs[..k]), xs[k])
  {
    hide Max, Abs, Product;
    var k := |xs| - 1;
    PowerPositive(DECAY, k);
    PowerPositive(DECAY, k - 1);
    assert |xs[..k]| - 1 == k - 1;
    assert RunningMax(xs) == Max(RunningMax(xs[..k]), Abs(xs[k]) / Power(DECAY, k));
    RescaledMax(DECAY, Power(DECAY, k - 1), Abs(xs[k]), RunningMax(xs[..k]), Product(DECAY, env));
  }

  /** One step of the loop's follower is the documented one unless the sample lies in the decay's gap. */
  lemma FollowStepDiffers(env: real, x: real)
    requires env >= 0.0
    ensures FollowStep(env, x) != PeakStep(env, x) <==> DECAY * env < Abs(x) <= env
  {}

  /** The gap in which a sample makes the two followers part: above the decayed peak, not above the peak. */
  predicate InGap(peak: real, x: real) {
    DECAY * peak < Abs(x) <= peak
  }

  /** Over a whole block the two followers agree throughout if and only if no sample falls in the gap. */
  lemma {:induction false} FollowIsPeak(env: real, xs: seq<real>)
    requires env >= 0.0
    ensures (forall k :: 0 <= k <= |xs| ==> Follow(env, xs[..k]) == Peak(env, xs[..k])) <==>
            (forall k :: 0 <= k < |xs| ==> !InGap(Peak(env, xs[..k]), xs[k]))
    decreases |xs|
  {
    hide Follow, Peak, InGap, FollowStep, PeakStep;
    if xs == [] {
      Followed(env, xs);
    } else {
      var n := |xs| - 1;
      FollowIsPeak(env, xs[..n]);
      assert forall k :: 0 <= k <= n ==> xs[..n][..k] == xs[..k];
      assert xs[..n + 1] == xs && xs[..n][..n] == xs[..n];
      Followed(env, xs);
      FollowNearPeak(env, xs[..n]);
      StepInGap(Peak(env, xs[..n]), xs[n]);
      FollowSplits(env, xs);
    }
  }

  lemma Followed(env: real, xs: seq<real>)
    ensures xs == [] ==> Follow(env, xs) == env == Peak(env, xs)
    ensures xs != [] ==> Follow(env, xs) == FollowStep(Follow(env, xs[..|xs| - 1]), xs[|xs| - 1])
    ensures xs != [] ==> Peak(env, xs) == PeakStep(Peak(env, xs[..|xs| - 1]), xs[|xs| - 1])
  {}

  lemma StepInGap(peak: real, x: real)
    requires peak >= 0.0
    ensures FollowStep(peak, x) != PeakStep(peak, x) <==> InGap(peak, x)
  {
    FollowStepDiffers(peak, x);
  }

  /** Agreement over a block is agreement over all but the last sample, and at the end. */
  lemma FollowSplits(env: real, xs: seq<real>)
    requires xs != []
    ensures var n := |xs| - 1;
            (forall k :: 0 <= k <= |xs| ==> Follow(env, xs[..k]) == Peak(env, xs[..k])) <==>
            (forall k :: 0 <= k <= n ==> Follow(env, xs[..n][..k]) == Peak(env, xs[..n][..k])) &&
            Follow(env, xs) == Peak(env, xs)
  {
    hide Follow, Peak;
    var n := |xs| - 1;
    assert xs[..|xs|] == xs;
    assert forall k :: 0 <= k <= n ==> xs[..n][..k] == xs[..k];
  }

  /** Over a whole block the two followers are never further apart than one decay. */
  lemma {:induction false} FollowNearPeak(env: real, xs: seq<real>)
    requires env >= 0.0
    ensures 0.0 <= DECAY * Peak(env, xs) <= Follow(env, xs) <= Peak(env, xs)
  {
    if xs != [] {
      FollowNearPeak(env, xs[..|xs| - 1]);
    }
  }

  /** The gap is real: a sample just below the peak. */
  lemma FollowersDiffer()
    ensures Follow(1.0, [1.0]) != Peak(1.0, [1.0])
  {
    assert [1.0][..0] == [];
  }

  // ------------------------------------------------------------ the two readers

  function Values(buf: seq<real>, ratio: real, p: Place, n: nat): (xs: seq<real>)
    requires 0.0 <= p.pos && 0.0 <= ratio
    ensures |xs| == n
  {
    seq(n, k requires 0 <= k < n => ValueAt(buf, ratio, p, k))
  }

  lemma ValuesSnoc(buf: seq<real>, ratio: real, p: Place, n: nat)
    requires 0.0 <= p.pos && 0.0 <= ratio
    ensures Values(buf, ratio, p, n + 1) == Values(buf, ratio, p, n) + [ValueAt(buf, ratio, p, n)]
  {
    hide ValueAt;
  }

  /** What remains once the samples already passed are dropped. */
  function Trimmed(buf: seq<real>, pos: real): (seq<real>, real)
    requires 0.0 <= pos
  {
    var i := pos.Floor;
    (if i >= |buf| then [] else buf[i..], pos - i as real)
  }

  /** Sample k as the stepwise definitions give it, under either peak follower. */
  function SampleAt(buf: seq<real>, ratio: real, p: Place, env: real, k: nat, loop: bool): Sample
    requires 0.0 <= p.pos && 0.0 <= ratio
  {
    var xs := Values(buf, ratio, p, k + 1);
    Sample(ValueAt(buf, ratio, p, k), PlaceAt(buf, ratio, p, k + 1).fade,
           if loop then Follow(env, xs) else Peak(env, xs))
  }

  predicate IsBlock(buf: seq<real>, ratio: real, p: Place, env: real, out: seq<Sample>, loop: bool)
    requires 0.0 <= p.pos && 0.0 <= ratio
  {
    forall k :: 0 <= k < |out| ==> out[k] == SampleAt(buf, ratio, p, env, k, loop)
  }

  /** What one sample of the loop does. */
  lemma SampleNext(buf: seq<real>, ratio: real, p: Place, env: real, k: nat)
    requires 0.0 <= p.pos && 0.0 <= ratio
    ensures var here := PlaceAt(buf, ratio, p, k);
            var x := if Playable(buf, here.pos) then Between(buf, here.pos) else 0.0;
            var next := PlaceStep(buf, ratio, here);
            var peak := FollowStep(Follow(env, Values(buf, ratio, p, k)), x);
            && PlaceAt(buf, ratio, p, k + 1) == next
            && Follow(env, Values(buf, ratio, p, k + 1)) == peak
            && SampleAt(buf, ratio, p, env, k, true) == Sample(x, next.fade, peak)
  {
    hide Between, FollowStep, PlaceStep, Playable;
    ValuesSnoc(buf, ratio, p, k);
    FollowSnoc(env, Values(buf, ratio, p, k), ValueAt(buf, ratio, p, k));
  }

  class PhysDevice {
    var buf: seq<real>
    var pos: real
    var env: real
    var fade: real

    constructor ()
      ensures buf == [] && pos == 0.0 && env == 0.001 && fade == 0.0
    {
      buf, pos, env, fade := [], 0.0, 0.001, 0.0;
    }

    /** Take new samples, bound the latency, and find the consume ratio. */
    method Refill(vals: seq<real>) returns (ratio: real)
      requires 0.0 <= pos
      modifies this`buf, this`pos
      ensures var all := old(buf) + vals;
              if |all| <= SAMPLE_RATE then buf == all && pos == old(pos)
              else buf == all[|all| - SAMPLE_RATE / 2..] && pos == 0.0
      ensures ratio == Max(0.0, Min(4.0, (|buf| as real - pos) / 4800.0))
      ensures 0.0 <= ratio <= 4.0 && |buf| <= SAMPLE_RATE && 0.0 <= pos
    {
      buf := buf + vals;
      if |buf| > SAMPLE_RATE {
        buf := buf[|buf| - SAMPLE_RATE / 2..];
        pos := 0.0;
      }
      ratio := Max(0.0, Min(4.0, (|buf| as real - pos) / (SAMPLE_RATE as real / 10.0)));
    }

    method Trim()
      requires 0.0 <= pos
      modifies this`buf, this`pos
      ensures (buf, pos) == Trimmed(old(buf), old(pos))
    {
      var i := pos.Floor;
      if i > 0 {
        buf := if i >= |buf| then [] else buf[i..];
        pos := pos - i as real;
      }
    }

    method ReadSample(ratio: real) returns (out: Sample)
      requires 0.0 <= pos && 0.0 <= ratio
      modifies this`pos, this`fade, this`env
      ensures Place(pos, fade) == PlaceStep(buf, ratio, Place(old(pos), old(fade))) && 0.0 <= pos
      ensures out.x == if Playable(buf, old(pos)) then Between(buf, old(pos)) else 0.0
      ensures env == FollowStep(old(env), out.x) && out.fade == fade && out.env == env
    {
      hide Product;
      var x := 0.0;
      if pos.Floor + 1 < |buf| {
        x := Between(buf, pos);
        pos := pos + ratio;
        fade := Min(1.0, fade + FADE_STEP);
      } else {
        fade := Max(0.0, fade - FADE_STEP);
      }
      if Abs(x) > env {
        env := Abs(x);
      } else {
        env := Product(DECAY, env);
      }
      out := Sample(x, fade, env);
    }

    /** The loop over samples. */
    method ReadLoop(n: nat, ratio: real) returns (out: seq<Sample>)
      requires 0.0 <= pos && 0.0 <= ratio
      modifies this
      ensures |out| == n && IsBlock(old(buf), ratio, Place(old(pos), old(fade)), old(env), out, true)
      ensures var end := PlaceAt(old(buf), ratio, Place(old(pos), old(fade)), n);
              (buf, pos) == Trimmed(old(buf), end.pos) && fade == end.fade
      ensures env == Follow(old(env), Values(old(buf), ratio, Place(old(pos), old(fade)), n))
    {
      hide SampleAt, Follow, FollowStep, PlaceAt, PlaceStep, Values, Playable, Between, Trimmed;
      ghost var start := Place(pos, fade);
      out := [];
      LoopStart(buf, ratio, start, env);
      for i := 0 to n
        invariant |out| == i && buf == old(buf) && 0.0 <= pos
        invariant Place(pos, fade) == PlaceAt(buf, ratio, start, i)
        invariant env == Follow(old(env), Values(buf, ratio, start, i))
        invariant IsBlock(buf, ratio, start, old(env), out, true)
      {
        SampleNext(buf, ratio, start, old(env), i);
        var next := ReadSample(ratio);
        out := out + [next];
      }
      Trim();
    }

    /** The block form: positions, a count, a clipped line and a scaled running maximum. */
    method ReadBlock(n: nat, ratio: real) returns (out: seq<Sample>)
      requires 0.0 <= pos && 0.0 <= ratio && n > 0
      modifies this
      ensures |out| == n && IsBlock(old(buf), ratio, Place(old(pos), old(fade)), old(env), out, false)
      ensures var end := PlaceAt(old(buf), ratio, Place(old(pos), old(fade)), n);
              (buf, pos) == Trimmed(old(buf), end.pos) && fade == end.fade
      ensures env == Peak(old(env), Values(old(buf), ratio, Place(old(pos), old(fade)), n))
    {
      hide Times, Between, PeakLine, CountPlayable, PlaceAt, FadeLine, Positions, Peak, Values, Trimmed;
      ghost var start := Place(pos, fade);
      var m := CountPlayable(buf, Positions(pos, ratio, n));
      var xs := BlockXs(buf, ratio, pos, n);
      out := BlockSamples(fade, env, m, xs);
      BlockIsLoop(buf, ratio, start, env, n);
      BlockEnd(buf, ratio, start, n);
      if m > 0 {
        pos := Positions(pos, ratio, n)[m - 1] + ratio;
      }
      fade := out[n - 1].fade;
      env := out[n - 1].env;
      Trim();
    }
  }

  lemma LoopStart(buf: seq<real>, ratio: real, p: Place, env: real)
    requires 0.0 <= p.pos && 0.0 <= ratio
    ensures PlaceAt(buf, ratio, p, 0) == p && Follow(env, Values(buf, ratio, p, 0)) == env
  {}

  /** The samples of a block: interpolated while positions are playable, then silence. */
  function BlockXs(buf: seq<real>, ratio: real, pos: real, n: nat): (xs: seq<real>)
    requires 0.0 <= pos && 0.0 <= ratio
    ensures |xs| == n
  {
    var ps := Positions(pos, ratio, n);
    var m := CountPlayable(buf, ps);
    PlayablePrefix(buf, pos, ratio, n);
    assert forall k: nat {:trigger Times(ratio, k)} :: Times(ratio, k) >= 0.0 by { TimesAllPositive(ratio); }
    seq(n, k requires 0 <= k < n => if k < m then Between(buf, ps[k]) else 0.0)
  }

  lemma TimesAllPositive(a: real)
    requires a >= 0.0
    ensures forall k: nat {:trigger Times(a, k)} :: Times(a, k) >= 0.0
  {
    hide Times;
    forall k: nat ensures Times(a, k) >= 0.0 {
      TimesPositive(a, k);
    }
  }

  function BlockSamples(fade: real, env: real, m: nat, xs: seq<real>): (out: seq<Sample>)
    ensures |out| == |xs|
  {
    seq(|xs|, k requires 0 <= k < |xs| => Sample(xs[k], FadeLine(fade, m, k), PeakLine(env, xs[..k + 1])))
  }

  lemma BlockIsLoop(buf: seq<real>, ratio: real, p: Place, env: real, n: nat)
    requires 0.0 <= p.pos && 0.0 <= ratio
    ensures var m := CountPlayable(buf, Positions(p.pos, ratio, n));
            IsBlock(buf, ratio, p, env, BlockSamples(p.fade, env, m, BlockXs(buf, ratio, p.pos, n)), false)
  {
    hide Times, Between, Playable, CountPlayable, PlaceAt, FadeLine, PeakLine, Peak, BlockXs, Follow, ValueAt;
    var m := CountPlayable(buf, Positions(p.pos, ratio, n));
    var xs := BlockXs(buf, ratio, p.pos, n);
    BlockValues(buf, ratio, p, n);
    forall k | 0 <= k < n
      ensures FadeLine(p.fade, m, k) == PlaceAt(buf, ratio, p, k + 1).fade
      ensures PeakLine(env, xs[..k + 1]) == Peak(env, Values(buf, ratio, p, k + 1))
    {
      PlaceLine(buf, ratio, p, n, k + 1);
      PeakLineIsPeak(env, xs[..k + 1]);
      assert xs[..k + 1] == Values(buf, ratio, p, k + 1);
    }
  }

  /** Where a block leaves the position and the fade. */
  lemma BlockEnd(buf: seq<real>, ratio: real, p: Place, n: nat)
    requires 0.0 <= p.pos && 0.0 <= ratio && n > 0
    ensures var ps := Positions(p.pos, ratio, n);
            var m := CountPlayable(buf, ps);
            PlaceAt(buf, ratio, p, n).pos == if m > 0 then ps[m - 1] + ratio else p.pos
  {
    hide Times, Playable, CountPlayable, PlaceAt, FadeLine;
    var ps := Positions(p.pos, ratio, n);
    var m := CountPlayable(buf, ps);
    PlaceLine(buf, ratio, p, n, n);
    TimesNext(ratio, 0);
    if m > 0 {
      TimesNext(ratio, m - 1);
      assert ps[m - 1] == p.pos + Times(ratio, m - 1);
    }
  }

  lemma FollowSnoc(env: real, xs: seq<real>, x: real)
    ensures Follow(env, xs + [x]) == FollowStep(Follow(env, xs), x)
  {
    assert (xs + [x])[..|xs|] == xs;
  }

  /** The block's samples are the loop's. */
  lemma BlockValues(buf: seq<real>, ratio: real, p: Place, n: nat)
    requires 0.0 <= p.pos && 0.0 <= ratio
    ensures BlockXs(buf, ratio, p.pos, n) == Values(buf, ratio, p, n)
  {
    hide Times, Between, Playable, PlaceAt, CountPlayable;
    var ps := Positions(p.pos, ratio, n);
    PlayablePrefix(buf, p.pos, ratio, n);
    forall k | 0 <= k < n ensures BlockXs(buf, ratio, p.pos, n)[k] == ValueAt(buf, ratio, p, k) {
      PlaceLine(buf, ratio, p, n, k);
      if k >= CountPlayable(buf, ps) {
        StuckBeyond(buf, ratio, p, n, k);
      }
    }
  }

  /** Some sample of the block falls in the gap of the peak before it. */
  predicate SomeInGap(buf: seq<real>, ratio: real, p: Place, env: real, n: nat)
    requires 0.0 <= p.pos && 0.0 <= ratio
  {
    exists k :: 0 <= k < n && InGap(Peak(env, Values(buf, ratio, p, k)), ValueAt(buf, ratio, p, k))
  }

  /**
   The two readers on the same device: the same samples, fades, position and buffer. Their
   peaks are the same too exactly when no sample falls in the gap, and never further apart
   than one decay.
   */
  lemma ReadersAgree(buf: seq<real>, ratio: real, p: Place, env: real, loop: seq<Sample>, block: seq<Sample>)
    requires 0.0 <= p.pos && 0.0 <= ratio && 0.0 <= env && |loop| == |block|
    requires IsBlock(buf, ratio, p, env, loop, true) && IsBlock(buf, ratio, p, env, block, false)
    ensures forall k :: 0 <= k < |loop| ==>
              && loop[k].x == block[k].x && loop[k].fade == block[k].fade
              && 0.0 <= DECAY * block[k].env <= loop[k].env <= block[k].env
    ensures loop == block <==> !SomeInGap(buf, ratio, p, env, |loop|)
  {
    hide Follow, Peak, ValueAt, PlaceAt, Values, InGap;
    var n := |loop|;
    var xs := Values(buf, ratio, p, n);
    forall k | 0 <= k < n ensures 0.0 <= DECAY * block[k].env <= loop[k].env <= block[k].env {
      FollowNearPeak(env, Values(buf, ratio, p, k + 1));
    }
    forall k | 0 <= k <= n ensures xs[..k] == Values(buf, ratio, p, k) && (k < n ==> xs[k] == ValueAt(buf, ratio, p, k)) {
      ValuesPrefix(buf, ratio, p, n, k);
    }
    FollowIsPeak(env, xs);
    Followed(env, xs[..0]);
    if loop == block {
      forall k | 0 <= k <= n ensures Follow(env, xs[..k]) == Peak(env, xs[..k]) {
        if k > 0 {
          assert loop[k - 1].env == block[k - 1].env;
        }
      }
    }
    if !SomeInGap(buf, ratio, p, env, n) {
      forall k | 0 <= k < n ensures !InGap(Peak(env, xs[..k]), xs[k]) {
        assert !InGap(Peak(env, Values(buf, ratio, p, k)), ValueAt(buf, ratio, p, k));
      }
      forall k | 0 <= k < n ensures loop[k] == block[k] {
        assert Follow(env, xs[..k + 1]) == Peak(env, xs[..k + 1]);
      }
    }
  }

  lemma ValuesPrefix(buf: seq<real>, ratio: real, p: Place, n: nat, k: nat)
    requires 0.0 <= p.pos && 0.0 <= ratio && k <= n
    ensures Values(buf, ratio, p, n)[..k] == Values(buf, ratio, p, k)
    ensures k < n ==> Values(buf, ratio, p, n)[k] == ValueAt(buf, ratio, p, k)
  {
    hide ValueAt;
  }

  // ------------------------------------------------------------- what is heard

  /** Half way between two samples is half way between their values, and so on: a straight line. */
  lemma BetweenIsStraight(buf: seq<real>, i: nat, t: real)
    requires i + 1 < |buf| && 0.0 <= t < 1.0
    ensures (i as real + t).Floor == i
    ensures Between(buf, i as real + t) - buf[i] == t * (buf[i + 1] - buf[i])
    ensures Min(buf[i], buf[i + 1]) <= Between(buf, i as real + t) <= Max(buf[i], buf[i + 1])
  {
    FloorShift(t, i);
    Straight(buf[i], buf[i + 1], t);
  }

  lemma Straight(a: real, b: real, t: real)
    requires 0.0 <= t < 1.0
    ensures var v := a * (1.0 - t) + b * t;
            v - a == t * (b - a) && Min(a, b) <= v <= Max(a, b)
  {
    assert a * (1.0 - t) + b * t - a == t * (b - a);
    if a <= b {
      Within(t, b - a);
    } else {
      Within(t, a - b);
      assert t * (b - a) == -(t * (a - b));
    }
  }

  lemma Within(t: real, d: real)
    requires 0.0 <= t <= 1.0 && d >= 0.0
    ensures 0.0 <= t * d <= d
  {
    assert (1.0 - t) * d >= 0.0;
  }

  /** Dropping the samples that were played changes nothing of what is still to be heard. */
  lemma TrimKeepsPlace(buf: seq<real>, pos: real, d: real)
    requires 0.0 <= pos && 0.0 <= d
    ensures var (rest, at) := Trimmed(buf, pos);
            && 0.0 <= at < 1.0
            && (Playable(rest, at + d) <==> Playable(buf, pos + d))
            && (Playable(buf, pos + d) ==> Between(rest, at + d) == Between(buf, pos + d))
  {
    var i := pos.Floor;
    var at := pos - i as real;
    FloorShift(at + d, i);
    assert pos + d == at + d + i as real;
  }

  lemma FloorShift(x: real, i: int)
    ensures (x + i as real).Floor == x.Floor + i
  {}

  /** Two blocks, with the trim between them, are one long block: places, fades and values. */
  lemma {:induction false} BlocksJoin(buf: seq<real>, ratio: real, p: Place, n: nat, k: nat)
    requires 0.0 <= p.pos && 0.0 <= ratio
    ensures var end := PlaceAt(buf, ratio, p, n);
            var (rest, at) := Trimmed(buf, end.pos);
            && 0.0 <= at
            && var q := Place(at, end.fade);
               && PlaceAt(buf, ratio, p, n + k).pos == PlaceAt(rest, ratio, q, k).pos + (end.pos - at)
               && PlaceAt(buf, ratio, p, n + k).fade == PlaceAt(rest, ratio, q, k).fade
               && ValueAt(buf, ratio, p, n + k) == ValueAt(rest, ratio, q, k)
               && PlaceAt(rest, ratio, q, k).pos >= at
  {
    hide Trimmed, Playable, Between;
    var end := PlaceAt(buf, ratio, p, n);
    var (rest, at) := Trimmed(buf, end.pos);
    TrimKeepsPlace(buf, end.pos, 0.0);
    var q := Place(at, end.fade);
    if k > 0 {
      BlocksJoin(buf, ratio, p, n, k - 1);
      TrimKeepsPlace(buf, end.pos, PlaceAt(rest, ratio, q, k - 1).pos - at);
    }
    TrimKeepsPlace(buf, end.pos, PlaceAt(rest, ratio, q, k).pos - at);
  }

  /** A fade takes a thousand samples, and a peak keeps all but three parts in a hundred thousand. */
  lemma FadeAndDecay()
    ensures Times(FADE_STEP, 1000) == 1.0
    ensures 100000.0 * (1.0 - DECAY) == 3.0
  {}

  /** One step of the ramp brings the gain nearer by the step, or all the way. */
  lemma RampNears(gain: real, target: real, step: real)
    requires step > 0.0
    ensures var next := RampStep(gain, target, step);
            && Abs(target - next) == Max(0.0, Abs(target - gain) - step)
            && Min(gain, target) <= next <= Max(gain, target)
  {}
}
