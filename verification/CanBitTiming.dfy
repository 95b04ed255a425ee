/** The CAN bit-timing search: given the clock, the wanted bit rate and the driver's limits,
    find prescaler, segments and jump width.

    The search is written over `u32`, so that every intermediate operation is checked not to wrap
    and not to divide by zero; its specification is a fold over all settings, with none of the
    search's pruning, written over `int`. */
module CanBitTiming {

  newtype u32 = x: int | 0 <= x < 0x1_0000_0000

  const MAX_BIT_TIME: u32 := 25
  const MIN_BIT_TIME: u32 := 8
  const MAX_PROP_SEG: u32 := 8
  const MAX_PHASE_SEG2: u32 := 8

  /** The largest prescaler limit for which no product of the search wraps: see ToleranceFitsIff. */
  const SAFE_MAX_BRP := 1073

  /** The largest prescaler limit for which the range brp_min..brp_max holds every accurate setting. */
  const LOSSLESS_MAX_BRP := 500

  /** A bit timing: prescaler, the three segments (in time quanta), jump width, sampling mode. */
  datatype Setting = Setting(brp: int, propSeg: int, phaseSeg1: int, phaseSeg2: int, sjw: int, sam: bool) {
    function TotalQuanta(): int { 1 + propSeg + phaseSeg1 + phaseSeg2 }
  }

  datatype Best = NoSetting | Found(setting: Setting)

  datatype Status = Ok | RangeError | DomainError

  // ---------------------------------------------------------------------------------------------
  // Specification: which settings there are, how they are ranked, and the fold over all of them
  // ---------------------------------------------------------------------------------------------

  function Min(x: int, y: int): int { if x <= y then x else y }

  function Abs(x: int): int { if x < 0 then -x else x }

  /** The bit time in thousandths of a clock tick, as the search sees it (truncated to 32 bits). */
  function ExpectedBrp(clock: int, baudrate: int): int
    requires 0 <= clock && 0 < baudrate
  {
    (clock * 1000 / baudrate) % 0x1_0000_0000
  }

  /** The one total number of quanta that is tried for a prescaler: rounded up below 25. */
  function Quanta(expected: int, brp: int): int
    requires 0 < brp
  {
    var q := expected / (brp * 1000);
    if q < 25 && q * brp * 1000 != expected then q + 1 else q
  }

  function TopSeg2(q: int): int { Min((q - 3) / 2, 8) }

  /** The setting with a given phase segment 2, its largest jump width and its derived segments. */
  function SettingFor(expected: int, maxSjw: int, brp: int, seg2: int): Setting
    requires 0 < brp
  {
    var seg1 := seg2 - seg2 % 2;
    Setting(brp, Quanta(expected, brp) - 1 - seg2 - seg1, seg1, seg2, Min(maxSjw, seg2 - 1), seg1 > 3)
  }

  /** Every setting the search is responsible for: any prescaler up to the limit, any jump width. */
  predicate IsCandidate(expected: int, maxBrp: int, maxSjw: int, s: Setting) {
    && 1 <= s.brp <= maxBrp
    && 8 <= Quanta(expected, s.brp) <= 25
    && 2 <= s.phaseSeg2 <= TopSeg2(Quanta(expected, s.brp))
    && s.phaseSeg1 == s.phaseSeg2 - s.phaseSeg2 % 2
    && s.TotalQuanta() == Quanta(expected, s.brp)
    && s.phaseSeg1 <= s.propSeg <= 8
    && 1 <= s.sjw <= Min(maxSjw, s.phaseSeg2 - 1)
    && s.sam == (s.phaseSeg1 > 3)
  }

  lemma QuantaBounds(expected: int, brp: int)
    requires 0 < brp && 0 <= expected
    ensures 8 <= Quanta(expected, brp) ==> 0 < expected
    ensures 8 <= Quanta(expected, brp) ==> (Quanta(expected, brp) - 1) * (brp * 1000) <= expected
    ensures forall p {:trigger p * (brp * 1000)} :: 8 <= Quanta(expected, brp) && 0 <= p < Quanta(expected, brp)
              ==> p * (brp * 1000) <= expected
  {
    var d := brp * 1000;
    var fl := expected / d;
    assert fl * d <= expected;
    forall p {:trigger p * d} | 8 <= Quanta(expected, brp) && 0 <= p < Quanta(expected, brp)
      ensures p * d <= expected
    {
      MulMonotone(p, fl, d);
    }
    if 8 <= Quanta(expected, brp) {
      MulMonotone(1, fl, d);
    }
  }

  lemma MulMonotone(x: int, y: int, d: int)
    requires x <= y && 0 <= d
    ensures x * d <= y * d
  {
  }

  lemma QuotientAtLeast(x: int, d: int, k: int)
    requires 0 < d && k * d <= x
    ensures k <= x / d
  {
    if x / d < k {
      MulMonotone(x / d + 1, k, d);
    }
  }

  lemma QuotientBelow(x: int, d: int, k: int)
    requires 0 < d && x < k * d
    ensures x / d < k
  {
    if k <= x / d {
      MulMonotone(k, x / d, d);
    }
  }

  lemma DivisionShrinks(x: int, d: int)
    requires 0 <= x && 0 < d
    ensures 0 <= x / d <= x
  {
    if x < x / d {
      MulMonotone(x + 1, x / d, d);
      MulMonotone(1, d, x + 1);
    }
  }

  /** The oscillator tolerance of a setting, in the search's own integer arithmetic. */
  function Tolerance(expected: int, s: Setting): int
    requires 0 < s.brp && 0 < expected && s.phaseSeg2 * (s.brp * 1000) <= expected
  {
    Min(s.phaseSeg1 * s.brp * 500 * 1000 / (13 * expected - s.phaseSeg2 * s.brp * 1000),
        s.sjw * s.brp * 50 * 1000 / expected)
  }

  /** The deviation from the wanted bit rate, in units of 0.01%. */
  function RateError(expected: int, s: Setting): int
    requires 0 < s.brp * s.TotalQuanta()
  {
    Abs(expected * 10 / (s.brp * s.TotalQuanta()) - 10000)
  }

  lemma MulPositive(x: int, y: int)
    requires 0 < x && 0 < y
    ensures 0 < x * y
  {
  }

  /** Settings for which tolerance and rate error are defined. */
  ghost predicate Measurable(expected: int, s: Setting) {
    && 0 < s.brp && 0 < expected && 0 < s.TotalQuanta() && 0 < s.brp * s.TotalQuanta()
    && s.phaseSeg2 * (s.brp * 1000) <= expected
  }

  lemma CandidateMeasurable(expected: int, maxBrp: int, maxSjw: int, s: Setting)
    requires 0 <= expected && IsCandidate(expected, maxBrp, maxSjw, s)
    ensures Measurable(expected, s)
  {
    QuantaBounds(expected, s.brp);
    assert s.phaseSeg2 * (s.brp * 1000) <= expected;
    MulPositive(s.brp, s.TotalQuanta());
  }

  /** Replacing `s` by `t` never loses tolerance or rate, nor propagation time at an equal rate. */
  ghost predicate Improves(expected: int, s: Setting, t: Setting)
    requires Measurable(expected, s) && Measurable(expected, t)
  {
    && Tolerance(expected, t) >= Tolerance(expected, s)
    && RateError(expected, t) <= RateError(expected, s)
    && (RateError(expected, t) == RateError(expected, s) ==> t.propSeg >= s.propSeg)
  }

  /** `c` is at least as good as `s` in all three respects, and better in one. */
  ghost predicate Dominates(expected: int, c: Setting, s: Setting)
    requires Measurable(expected, c) && Measurable(expected, s)
  {
    && Tolerance(expected, c) >= Tolerance(expected, s)
    && RateError(expected, c) <= RateError(expected, s)
    && c.propSeg >= s.propSeg
    && (Tolerance(expected, c) > Tolerance(expected, s) || RateError(expected, c) < RateError(expected, s)
        || c.propSeg > s.propSeg)
  }

  /** The selection rule of one visit. */
  ghost function Choose(expected: int, best: Best, c: Setting): Best
    requires Measurable(expected, c)
    requires best.Found? ==> Measurable(expected, best.setting)
  {
    if RateError(expected, c) > 10 then best
    else if best.NoSetting? || Improves(expected, best.setting, c) then Found(c)
    else best
  }

  ghost predicate Sound(expected: int, maxBrp: int, maxSjw: int, best: Best) {
    best.Found? ==>
      && IsCandidate(expected, maxBrp, maxSjw, best.setting)
      && best.setting == SettingFor(expected, maxSjw, best.setting.brp, best.setting.phaseSeg2)
      && Measurable(expected, best.setting)
      && RateError(expected, best.setting) <= 10
  }

  /** Visits phase segments 2 from `seg2` down to 2. */
  ghost function FoldSeg2(expected: int, maxBrp: int, maxSjw: int, brp: int, seg2: int, best: Best): (r: Best)
    requires 0 <= expected && 1 <= brp <= maxBrp
    requires seg2 <= TopSeg2(Quanta(expected, brp))
    requires Sound(expected, maxBrp, maxSjw, best)
    ensures Sound(expected, maxBrp, maxSjw, r)
    decreases seg2
  {
    if seg2 < 2 then best
    else
      var c := SettingFor(expected, maxSjw, brp, seg2);
      if IsCandidate(expected, maxBrp, maxSjw, c) then
        CandidateMeasurable(expected, maxBrp, maxSjw, c);
        FoldSeg2(expected, maxBrp, maxSjw, brp, seg2 - 1, Choose(expected, best, c))
      else
        FoldSeg2(expected, maxBrp, maxSjw, brp, seg2 - 1, best)
  }

  /** Visits prescalers from `brp` up to the limit. */
  ghost function FoldBrp(expected: int, maxBrp: int, maxSjw: int, brp: int, best: Best): (r: Best)
    requires 0 <= expected && 1 <= brp
    requires Sound(expected, maxBrp, maxSjw, best)
    ensures Sound(expected, maxBrp, maxSjw, r)
    decreases maxBrp - brp
  {
    if brp > maxBrp then best
    else
      FoldBrp(expected, maxBrp, maxSjw, brp + 1,
              FoldSeg2(expected, maxBrp, maxSjw, brp, TopSeg2(Quanta(expected, brp)), best))
  }

  /** The best setting over all prescalers 1..maxBrp and all phase segments, without any pruning. */
  ghost function Search(expected: int, maxBrp: int, maxSjw: int): (r: Best)
    requires 0 <= expected
    ensures Sound(expected, maxBrp, maxSjw, r)
  {
    FoldBrp(expected, maxBrp, maxSjw, 1, NoSetting)
  }

  // ---------------------------------------------------------------------------------------------
  // The winner is legal and undominated
  // ---------------------------------------------------------------------------------------------

  lemma ImprovesTransitive(expected: int, s: Setting, t: Setting, u: Setting)
    requires Measurable(expected, s) && Measurable(expected, t) && Measurable(expected, u)
    requires Improves(expected, s, t) && Improves(expected, t, u)
    ensures Improves(expected, s, u)
  {
    hide Tolerance, RateError, Measurable;
  }

  /** The fold went from `s` to `r`. */
  ghost predicate Continues(expected: int, s: Best, r: Best)
    requires s.Found? ==> Measurable(expected, s.setting)
    requires r.Found? ==> Measurable(expected, r.setting)
  {
    s.Found? ==> r.Found? && Improves(expected, s.setting, r.setting)
  }

  lemma ContinuesReflexive(expected: int, s: Best)
    requires s.Found? ==> Measurable(expected, s.setting)
    ensures Continues(expected, s, s)
  {
  }

  lemma ContinuesTransitive(expected: int, s: Best, t: Best, u: Best)
    requires s.Found? ==> Measurable(expected, s.setting)
    requires t.Found? ==> Measurable(expected, t.setting)
    requires u.Found? ==> Measurable(expected, u.setting)
    requires Continues(expected, s, t) && Continues(expected, t, u)
    ensures Continues(expected, s, u)
  {
    hide Improves, Measurable;
    if s.Found? {
      ImprovesTransitive(expected, s.setting, t.setting, u.setting);
    }
  }

  /** `c` has been offered: it was inaccurate, or the winner improves on it, or it does not improve
      on the winner. */
  ghost predicate Settled(expected: int, c: Setting, r: Best)
    requires Measurable(expected, c)
    requires r.Found? ==> Measurable(expected, r.setting)
  {
    RateError(expected, c) <= 10 ==>
      r.Found? && (Improves(expected, r.setting, c) ==> Improves(expected, c, r.setting))
  }

  lemma SettledIsKept(expected: int, c: Setting, s: Best, r: Best)
    requires Measurable(expected, c)
    requires s.Found? ==> Measurable(expected, s.setting)
    requires r.Found? ==> Measurable(expected, r.setting)
    requires Settled(expected, c, s) && Continues(expected, s, r)
    ensures Settled(expected, c, r)
  {
    hide Improves, RateError;
    if RateError(expected, c) <= 10 && Improves(expected, r.setting, c) {
      ImprovesTransitive(expected, s.setting, r.setting, c);
      ImprovesTransitive(expected, c, s.setting, r.setting);
    }
  }

  lemma OfferedIsSettled(expected: int, best: Best, c: Setting)
    requires Measurable(expected, c)
    requires best.Found? ==> Measurable(expected, best.setting)
    ensures Settled(expected, c, Choose(expected, best, c))
    ensures Continues(expected, best, Choose(expected, best, c))
  {
    hide Tolerance, RateError, Measurable;
  }

  lemma SettledIsUndominated(expected: int, c: Setting, r: Setting)
    requires Measurable(expected, c) && Measurable(expected, r) && RateError(expected, r) <= 10
    requires Settled(expected, c, Found(r))
    ensures !Dominates(expected, c, r)
  {
    hide Tolerance, RateError, Measurable;
  }

  lemma ChosenIsSound(expected: int, maxBrp: int, maxSjw: int, brp: int, seg2: int, best: Best)
    requires 0 <= expected && 1 <= brp <= maxBrp
    requires Sound(expected, maxBrp, maxSjw, best)
    requires IsCandidate(expected, maxBrp, maxSjw, SettingFor(expected, maxSjw, brp, seg2))
    ensures Measurable(expected, SettingFor(expected, maxSjw, brp, seg2))
    ensures Sound(expected, maxBrp, maxSjw, Choose(expected, best, SettingFor(expected, maxSjw, brp, seg2)))
  {
    hide Tolerance, RateError, Quanta, Improves;
    CandidateMeasurable(expected, maxBrp, maxSjw, SettingFor(expected, maxSjw, brp, seg2));
  }

  lemma {:induction false} FoldSeg2Settles(expected: int, maxBrp: int, maxSjw: int, brp: int, seg2: int,
          best: Best, c: Setting)
    requires 0 <= expected && 1 <= brp <= maxBrp
    requires seg2 <= TopSeg2(Quanta(expected, brp))
    requires Sound(expected, maxBrp, maxSjw, best)
    requires Measurable(expected, c)
    ensures var r := FoldSeg2(expected, maxBrp, maxSjw, brp, seg2, best);
      && Continues(expected, best, r)
      && (IsCandidate(expected, maxBrp, maxSjw, c) ==>
            c == SettingFor(expected, maxSjw, brp, c.phaseSeg2) ==>
              c.phaseSeg2 <= seg2 ==> Settled(expected, c, r))
    decreases seg2
  {
    hide Quanta, Tolerance, RateError, Improves, Measurable, Choose, Settled, Continues, SettingFor, Dominates;
    if seg2 < 2 {
      ContinuesReflexive(expected, best);
      assert !(IsCandidate(expected, maxBrp, maxSjw, c) && c.phaseSeg2 <= seg2);
    } else {
      var d := SettingFor(expected, maxSjw, brp, seg2);
      var next := best;
      ContinuesReflexive(expected, best);
      if IsCandidate(expected, maxBrp, maxSjw, d) {
        ChosenIsSound(expected, maxBrp, maxSjw, brp, seg2, best);
        next := Choose(expected, best, d);
        OfferedIsSettled(expected, best, d);
      }
      FoldSeg2Settles(expected, maxBrp, maxSjw, brp, seg2 - 1, next, c);
      var r := FoldSeg2(expected, maxBrp, maxSjw, brp, seg2 - 1, next);
      ContinuesTransitive(expected, best, next, r);
      if c == d && IsCandidate(expected, maxBrp, maxSjw, d) {
        SettledIsKept(expected, c, next, r);
      }
    }
  }

  lemma {:induction false} FoldBrpSettles(expected: int, maxBrp: int, maxSjw: int, brp: int, best: Best, c: Setting)
    requires 0 <= expected && 1 <= brp
    requires Sound(expected, maxBrp, maxSjw, best)
    requires Measurable(expected, c)
    ensures var r := FoldBrp(expected, maxBrp, maxSjw, brp, best);
      && Continues(expected, best, r)
      && (IsCandidate(expected, maxBrp, maxSjw, c) ==>
            c == SettingFor(expected, maxSjw, c.brp, c.phaseSeg2) ==>
              brp <= c.brp ==> Settled(expected, c, r))
    decreases maxBrp - brp
  {
    hide Quanta, Tolerance, RateError, FoldSeg2;
    if brp <= maxBrp {
      var top := TopSeg2(Quanta(expected, brp));
      var next := FoldSeg2(expected, maxBrp, maxSjw, brp, top, best);
      FoldSeg2Settles(expected, maxBrp, maxSjw, brp, top, best, c);
      FoldBrpSettles(expected, maxBrp, maxSjw, brp + 1, next, c);
      var r := FoldBrp(expected, maxBrp, maxSjw, brp + 1, next);
      ContinuesTransitive(expected, best, next, r);
      if IsCandidate(expected, maxBrp, maxSjw, c) && c == SettingFor(expected, maxSjw, brp, c.phaseSeg2) {
        SettledIsKept(expected, c, next, r);
      }
    }
  }

  /** A smaller jump width can only cost tolerance. */
  lemma WiderJumpIsNoWorse(expected: int, maxBrp: int, maxSjw: int, c: Setting)
    requires 0 <= expected && IsCandidate(expected, maxBrp, maxSjw, c)
    ensures var w := c.(sjw := Min(maxSjw, c.phaseSeg2 - 1));
      && IsCandidate(expected, maxBrp, maxSjw, w) && Measurable(expected, w) && Measurable(expected, c)
      && Tolerance(expected, c) <= Tolerance(expected, w)
      && RateError(expected, c) == RateError(expected, w)
  {
    var w := c.(sjw := Min(maxSjw, c.phaseSeg2 - 1));
    CandidateMeasurable(expected, maxBrp, maxSjw, c);
    CandidateMeasurable(expected, maxBrp, maxSjw, w);
    assert w.TotalQuanta() == c.TotalQuanta();
    ToleranceGrowsWithJump(expected, c, w.sjw);
  }

  lemma ToleranceGrowsWithJump(expected: int, c: Setting, sjw: int)
    requires Measurable(expected, c) && c.sjw <= sjw
    ensures Tolerance(expected, c) <= Tolerance(expected, c.(sjw := sjw))
  {
    MulMonotone(c.sjw, sjw, c.brp);
    QuotientMonotone(c.sjw * c.brp * 50 * 1000, sjw * c.brp * 50 * 1000, expected);
  }

  lemma QuotientMonotone(x: int, y: int, d: int)
    requires x <= y && 0 < d
    ensures x / d <= y / d
  {
    assert x / d * d <= x;
    QuotientAtLeast(y, d, x / d);
  }

  /** The winner of the search is a legal setting within 0.1% that no candidate dominates, and the
      search comes back empty-handed exactly when no candidate is within 0.1%. */
  lemma SearchIsParetoOptimal(expected: int, maxBrp: int, maxSjw: int)
    requires 0 <= expected
    ensures var r := Search(expected, maxBrp, maxSjw);
      && (r.Found? ==>
            && IsCandidate(expected, maxBrp, maxSjw, r.setting)
            && Measurable(expected, r.setting)
            && RateError(expected, r.setting) <= 10
            && r.setting.sjw == Min(maxSjw, r.setting.phaseSeg2 - 1)
            && forall c: Setting :: IsCandidate(expected, maxBrp, maxSjw, c) && Measurable(expected, c)
                 ==> !Dominates(expected, c, r.setting))
      && (r.NoSetting? <==> forall c: Setting :: IsCandidate(expected, maxBrp, maxSjw, c) && Measurable(expected, c)
                              ==> RateError(expected, c) > 10)
  {
    hide Tolerance, RateError, Quanta, FoldBrp;
    var r := Search(expected, maxBrp, maxSjw);
    forall c: Setting | IsCandidate(expected, maxBrp, maxSjw, c) && Measurable(expected, c)
      ensures RateError(expected, c) <= 10 ==> r.Found?
      ensures r.Found? ==> !Dominates(expected, c, r.setting)
    {
      WiderJumpIsNoWorse(expected, maxBrp, maxSjw, c);
      var w := c.(sjw := Min(maxSjw, c.phaseSeg2 - 1));
      FoldBrpSettles(expected, maxBrp, maxSjw, 1, NoSetting, w);
      if r.Found? {
        SettledIsUndominated(expected, w, r.setting);
      }
    }
  }

  /** The result respects the bit-timing rules of ISO 11898-1. */
  lemma SearchIsLegal(expected: int, maxBrp: int, maxSjw: int)
    requires 0 <= expected
    ensures var r := Search(expected, maxBrp, maxSjw);
      r.Found? ==>
        var s := r.setting;
        && 1 <= s.brp <= maxBrp
        && 8 <= s.TotalQuanta() <= 25
        && s.phaseSeg1 <= s.propSeg <= 8
        && 2 <= s.phaseSeg1 <= s.phaseSeg2 <= 8
        && 1 <= s.sjw <= s.phaseSeg1 && s.sjw < s.phaseSeg2 && s.sjw <= maxSjw
  {
    SearchIsParetoOptimal(expected, maxBrp, maxSjw);
  }

  /** clock/n is between 99.9% and 100.11% of the bit rate, give or take a truncated bit time. */
  ghost predicate RateIsAccurate(clock: real, baudrate: real, n: real)
    requires 0.0 < n
  {
    0.999 * baudrate <= clock / n < (1.0011 + 0.001 / n) * baudrate
  }

  /** How far the found bit rate, clock/(brp*quanta), may be from the wanted one: at least 99.9% of
      it, and at most 100.11% of it plus what the truncation of the bit time hides. */
  lemma AchievedRateIsAccurate(clock: int, baudrate: int, maxBrp: int, maxSjw: int)
    requires 0 <= clock && 0 < baudrate && clock * 1000 / baudrate < 0x1_0000_0000
    ensures var expected := ExpectedBrp(clock, baudrate);
      var r := Search(expected, maxBrp, maxSjw);
      r.Found? ==>
        var n := r.setting.brp * r.setting.TotalQuanta();
        && 0 < n && 9990 * n <= 10 * expected < 10011 * n
        && RateIsAccurate(clock as real, baudrate as real, n as real)
  {
    var expected := ExpectedBrp(clock, baudrate);
    var r := Search(expected, maxBrp, maxSjw);
    ExpectedBrpBounds(clock, baudrate);
    hide RateIsAccurate, ExpectedBrp, Search, RateError, Quanta, IsCandidate, Tolerance, SettingFor;
    if r.Found? {
      var n := r.setting.brp * r.setting.TotalQuanta();
      RateErrorBounds(expected, r.setting);
      RateFromBounds(clock, baudrate, expected, n);
    }
  }

  lemma ExpectedBrpBounds(clock: int, baudrate: int)
    requires 0 <= clock && 0 < baudrate && clock * 1000 / baudrate < 0x1_0000_0000
    ensures var expected := ExpectedBrp(clock, baudrate);
      0 <= expected && expected * baudrate <= clock * 1000 < (expected + 1) * baudrate
  {
    DivisionShrinks(clock * 1000, baudrate);
    var q := clock * 1000 / baudrate;
    assert q * baudrate <= clock * 1000 < q * baudrate + baudrate;
    assert ExpectedBrp(clock, baudrate) == q;
  }

  lemma RateErrorBounds(expected: int, s: Setting)
    requires Measurable(expected, s) && RateError(expected, s) <= 10
    ensures var n := s.brp * s.TotalQuanta(); 9990 * n <= 10 * expected < 10011 * n
  {
    var n := s.brp * s.TotalQuanta();
    var k := expected * 10 / n;
    assert k * n <= expected * 10 < (k + 1) * n;
    MulMonotone(9990, k, n);
    MulMonotone(k + 1, 10011, n);
  }

  lemma RateFromBounds(clock: int, baudrate: int, expected: int, n: int)
    requires 0 < n && 0 < baudrate
    requires 9990 * n <= 10 * expected < 10011 * n
    requires expected * baudrate <= clock * 1000 < (expected + 1) * baudrate
    ensures RateIsAccurate(clock as real, baudrate as real, n as real)
  {
    hide RateIsAccurate;
    MulMonotone(9990 * n, 10 * expected, baudrate);
    assert 999 * (n * baudrate) <= 1000 * clock;
    MulMonotone(10 * expected + 10, 10011 * n + 9, baudrate);
    assert 10000 * clock < 10011 * (n * baudrate) + 10 * baudrate;
    RealQuotient(clock as real, n as real, baudrate as real);
  }

  lemma RealQuotient(c: real, n: real, b: real)
    requires 0.0 < n && 999.0 * (n * b) <= 1000.0 * c && 10000.0 * c < 10011.0 * (n * b) + 10.0 * b
    ensures RateIsAccurate(c, b, n)
  {
    var q := c / n;
    assert q * n == c;
    var i := 1.0 / n;
    assert i * n == 1.0;
    assert 0.001 / n == 0.001 * i;
    if q < 0.999 * b {
      assert q * n < 0.999 * b * n;
    }
    var u := (1.0011 + 0.001 * i) * b;
    assert u * n == 1.0011 * (b * n) + 0.001 * b * (i * n);
    if q >= u {
      assert q * n >= u * n;
    }
  }

  // ---------------------------------------------------------------------------------------------
  // The range of prescalers that is actually searched
  // ---------------------------------------------------------------------------------------------

  function Max(x: int, y: int): int { if x <= y then y else x }

  function LowestBrp(expected: int): int { Max(expected / 25000, 1) }

  function HighestBrp(expected: int, maxBrp: int): int { Min(Max((expected + 4000) / 8000, 1), maxBrp) }

  /** The search over the range only. */
  ghost function RangedSearch(expected: int, maxBrp: int, maxSjw: int): (r: Best)
    requires 0 <= expected
    ensures Sound(expected, HighestBrp(expected, maxBrp), maxSjw, r)
  {
    FoldBrp(expected, HighestBrp(expected, maxBrp), maxSjw, LowestBrp(expected), NoSetting)
  }

  /** Below the range the bit time is too long, even where 25 quanta are still tried. */
  lemma BelowRangeIsInaccurate(expected: int, maxBrp: int, maxSjw: int, s: Setting)
    requires 0 <= expected && s.brp < LowestBrp(expected) && s.brp <= 909
    ensures IsCandidate(expected, maxBrp, maxSjw, s) && Measurable(expected, s) ==> RateError(expected, s) > 10
  {
    if IsCandidate(expected, maxBrp, maxSjw, s) && Measurable(expected, s) {
      var d := s.brp * 1000;
      assert 25000 * (s.brp + 1) <= expected;
      QuotientAtLeast(expected, d, 25);
      assert s.TotalQuanta() == 25;
      QuotientAtLeast(expected * 10, s.brp * 25, 10011);
    }
  }

  /** Above the range the bit time is too short, even where it is rounded up to 8 quanta. */
  lemma AboveRangeIsInaccurate(expected: int, maxBrp: int, maxSjw: int, s: Setting)
    requires 0 <= expected && HighestBrp(expected, maxBrp) < s.brp <= LOSSLESS_MAX_BRP
    ensures IsCandidate(expected, maxBrp, maxSjw, s) && Measurable(expected, s) ==> RateError(expected, s) > 10
  {
    if IsCandidate(expected, maxBrp, maxSjw, s) && Measurable(expected, s) {
      var d := s.brp * 1000;
      assert expected + 4000 < 8000 * s.brp;
      QuotientBelow(expected, d, 8);
      assert s.TotalQuanta() == 8;
      QuotientBelow(expected * 10, s.brp * 8, 9990);
    }
  }

  /** The range of prescalers holds every candidate within 0.1%, whatever the bit time, exactly when
      the driver's prescaler limit is at most 500. */
  lemma RangeLosesNothingIff(maxBrp: int, maxSjw: int)
    requires 1 <= maxSjw
    ensures (forall expected: int, s: Setting ::
               (0 <= expected && IsCandidate(expected, maxBrp, maxSjw, s) && Measurable(expected, s)
                && RateError(expected, s) <= 10)
               ==> LowestBrp(expected) <= s.brp <= HighestBrp(expected, maxBrp))
            <==> maxBrp <= LOSSLESS_MAX_BRP
  {
    if maxBrp <= LOSSLESS_MAX_BRP {
      forall expected: int, s: Setting |
          0 <= expected && IsCandidate(expected, maxBrp, maxSjw, s) && Measurable(expected, s)
          && RateError(expected, s) <= 10
        ensures LowestBrp(expected) <= s.brp <= HighestBrp(expected, maxBrp)
      {
        if s.brp < LowestBrp(expected) {
          BelowRangeIsInaccurate(expected, maxBrp, maxSjw, s);
        } else if HighestBrp(expected, maxBrp) < s.brp {
          AboveRangeIsInaccurate(expected, maxBrp, maxSjw, s);
        }
      }
    } else {
      var expected, s := 4003999, Setting(501, 3, 2, 2, 1, false);
      assert IsCandidate(expected, maxBrp, maxSjw, s) && Measurable(expected, s);
      assert RateError(expected, s) == 10;
      assert HighestBrp(expected, maxBrp) == 500;
    }
  }

  /** The largest product of the search, in the first tolerance bound, fits 32 bits for every candidate
      that is visited, whatever the bit time, exactly when the prescaler limit is at most 1073. */
  lemma ToleranceFitsIff(maxBrp: int, maxSjw: int)
    requires 1 <= maxSjw
    ensures (forall expected: int, s: Setting ::
               0 <= expected && IsCandidate(expected, maxBrp, maxSjw, s) && LowestBrp(expected) <= s.brp
               ==> s.phaseSeg1 * s.brp * 500 * 1000 < 0x1_0000_0000)
            <==> maxBrp <= SAFE_MAX_BRP
  {
    if maxBrp <= SAFE_MAX_BRP {
      forall expected: int, s: Setting |
          0 <= expected && IsCandidate(expected, maxBrp, maxSjw, s) && LowestBrp(expected) <= s.brp
        ensures s.phaseSeg1 * s.brp * 500 * 1000 < 0x1_0000_0000
      {
        MulMonotone(s.phaseSeg1, 8, s.brp);
      }
    } else {
      var expected, s := 26850000, Setting(1074, 8, 8, 8, 1, true);
      assert IsCandidate(expected, maxBrp, maxSjw, s) && LowestBrp(expected) <= s.brp;
      assert s.phaseSeg1 * s.brp * 500 * 1000 == 4296000000;
    }
  }

  /** A prescaler whose candidates are all inaccurate changes nothing. */
  lemma {:induction false} InaccurateBrpIsSkipped(expected: int, maxBrp: int, maxSjw: int, brp: int, seg2: int,
          best: Best)
    requires 0 <= expected && 1 <= brp <= maxBrp
    requires seg2 <= TopSeg2(Quanta(expected, brp))
    requires Sound(expected, maxBrp, maxSjw, best)
    requires forall s: Setting :: IsCandidate(expected, maxBrp, maxSjw, s) && Measurable(expected, s) && s.brp == brp
               ==> RateError(expected, s) > 10
    ensures FoldSeg2(expected, maxBrp, maxSjw, brp, seg2, best) == best
    decreases seg2
  {
    if 2 <= seg2 {
      var c := SettingFor(expected, maxSjw, brp, seg2);
      if IsCandidate(expected, maxBrp, maxSjw, c) {
        CandidateMeasurable(expected, maxBrp, maxSjw, c);
        assert Choose(expected, best, c) == best;
      }
      InaccurateBrpIsSkipped(expected, maxBrp, maxSjw, brp, seg2 - 1, best);
    }
  }

  /** The limit only bounds the prescalers: a fold over one prescaler does not depend on it. */
  lemma {:induction false} FoldSeg2IgnoresLimit(expected: int, m: int, n: int, maxSjw: int, brp: int,
          seg2: int, best: Best)
    requires 0 <= expected && 1 <= brp <= m <= n
    requires seg2 <= TopSeg2(Quanta(expected, brp))
    requires Sound(expected, m, maxSjw, best)
    ensures Sound(expected, n, maxSjw, best)
    ensures FoldSeg2(expected, m, maxSjw, brp, seg2, best) == FoldSeg2(expected, n, maxSjw, brp, seg2, best)
    decreases seg2
  {
    hide Quanta, Tolerance, RateError;
    if 2 <= seg2 {
      var c := SettingFor(expected, maxSjw, brp, seg2);
      if IsCandidate(expected, m, maxSjw, c) {
        CandidateMeasurable(expected, m, maxSjw, c);
        FoldSeg2IgnoresLimit(expected, m, n, maxSjw, brp, seg2 - 1, Choose(expected, best, c));
      } else {
        FoldSeg2IgnoresLimit(expected, m, n, maxSjw, brp, seg2 - 1, best);
      }
    }
  }

  lemma OutOfRangeIsSkipped(expected: int, maxBrp: int, maxSjw: int, brp: int, best: Best)
    requires 0 <= expected && 1 <= brp <= maxBrp <= LOSSLESS_MAX_BRP
    requires brp < LowestBrp(expected) || HighestBrp(expected, maxBrp) < brp
    requires Sound(expected, maxBrp, maxSjw, best)
    ensures FoldSeg2(expected, maxBrp, maxSjw, brp, TopSeg2(Quanta(expected, brp)), best) == best
  {
    forall s: Setting | IsCandidate(expected, maxBrp, maxSjw, s) && Measurable(expected, s) && s.brp == brp
      ensures RateError(expected, s) > 10
    {
      if brp < LowestBrp(expected) {
        BelowRangeIsInaccurate(expected, maxBrp, maxSjw, s);
      } else {
        AboveRangeIsInaccurate(expected, maxBrp, maxSjw, s);
      }
    }
    InaccurateBrpIsSkipped(expected, maxBrp, maxSjw, brp, TopSeg2(Quanta(expected, brp)), best);
  }

  /** The full fold from above the range changes nothing. */
  lemma {:induction false} FoldBrpAboveRange(expected: int, maxBrp: int, maxSjw: int, brp: int, best: Best)
    requires 0 <= expected && 1 <= brp && maxBrp <= LOSSLESS_MAX_BRP
    requires HighestBrp(expected, maxBrp) < brp
    requires Sound(expected, maxBrp, maxSjw, best)
    ensures FoldBrp(expected, maxBrp, maxSjw, brp, best) == best
    decreases maxBrp - brp
  {
    hide Quanta, Tolerance, RateError, FoldSeg2, LowestBrp;
    if brp <= maxBrp {
      OutOfRangeIsSkipped(expected, maxBrp, maxSjw, brp, best);
      FoldBrpAboveRange(expected, maxBrp, maxSjw, brp + 1, best);
    }
  }

  /** From inside the range on, the full fold equals the fold over the range. */
  lemma {:induction false} FoldBrpInRange(expected: int, maxBrp: int, maxSjw: int, brp: int, best: Best)
    requires 0 <= expected && 1 <= brp && maxBrp <= LOSSLESS_MAX_BRP
    requires Sound(expected, HighestBrp(expected, maxBrp), maxSjw, best)
    ensures Sound(expected, maxBrp, maxSjw, best)
    ensures FoldBrp(expected, maxBrp, maxSjw, brp, best)
         == FoldBrp(expected, HighestBrp(expected, maxBrp), maxSjw, brp, best)
    decreases maxBrp - brp
  {
    hide Quanta, Tolerance, RateError, FoldSeg2, LowestBrp;
    var hi := HighestBrp(expected, maxBrp);
    if hi < brp {
      FoldBrpAboveRange(expected, maxBrp, maxSjw, brp, best);
    } else {
      var top := TopSeg2(Quanta(expected, brp));
      FoldSeg2IgnoresLimit(expected, hi, maxBrp, maxSjw, brp, top, best);
      FoldBrpInRange(expected, maxBrp, maxSjw, brp + 1, FoldSeg2(expected, hi, maxSjw, brp, top, best));
    }
  }

  /** Below the range, the full fold does not pick anything. */
  lemma {:induction false} FoldBrpBelowRange(expected: int, maxBrp: int, maxSjw: int, brp: int)
    requires 0 <= expected && 1 <= brp <= LowestBrp(expected) && maxBrp <= LOSSLESS_MAX_BRP
    ensures FoldBrp(expected, maxBrp, maxSjw, brp, NoSetting)
         == FoldBrp(expected, maxBrp, maxSjw, LowestBrp(expected), NoSetting)
    decreases maxBrp - brp
  {
    hide Quanta, Tolerance, RateError, FoldSeg2, LowestBrp, HighestBrp;
    if brp < LowestBrp(expected) && brp <= maxBrp {
      OutOfRangeIsSkipped(expected, maxBrp, maxSjw, brp, NoSetting);
      FoldBrpBelowRange(expected, maxBrp, maxSjw, brp + 1);
    }
  }

  /** Searching the range only finds the very setting that searching everything finds. */
  lemma RangedSearchIsLossless(expected: int, maxBrp: int, maxSjw: int)
    requires 0 <= expected && maxBrp <= LOSSLESS_MAX_BRP
    ensures RangedSearch(expected, maxBrp, maxSjw) == Search(expected, maxBrp, maxSjw)
  {
    FoldBrpBelowRange(expected, maxBrp, maxSjw, 1);
    FoldBrpInRange(expected, maxBrp, maxSjw, LowestBrp(expected), NoSetting);
  }

  /** Candidates within the range of prescalers that is searched. */
  predicate InRange(expected: int, maxBrp: int, maxSjw: int, s: Setting) {
    IsCandidate(expected, maxBrp, maxSjw, s) && LowestBrp(expected) <= s.brp <= HighestBrp(expected, maxBrp)
  }

  /** Whatever the limit, the ranged search finds a setting within 0.1% that no candidate in the range
      dominates, and nothing exactly when no candidate in the range is within 0.1%. */
  lemma RangedSearchIsParetoOptimal(expected: int, maxBrp: int, maxSjw: int)
    requires 0 <= expected
    ensures var r := RangedSearch(expected, maxBrp, maxSjw);
      && (r.Found? ==>
            && InRange(expected, maxBrp, maxSjw, r.setting)
            && Measurable(expected, r.setting)
            && RateError(expected, r.setting) <= 10
            && forall c: Setting :: InRange(expected, maxBrp, maxSjw, c) && Measurable(expected, c)
                 ==> !Dominates(expected, c, r.setting))
      && (r.NoSetting? <==> forall c: Setting :: InRange(expected, maxBrp, maxSjw, c) && Measurable(expected, c)
                              ==> RateError(expected, c) > 10)
  {
    hide Tolerance, RateError, Quanta, FoldBrp, LowestBrp, Dominates, SettingFor;
    var r := RangedSearch(expected, maxBrp, maxSjw);
    LowestIsPositive(expected);
    var low := LowestBrp(expected);
    FoldBrpStartsAt(expected, HighestBrp(expected, maxBrp), maxSjw, low, NoSetting, low);
    forall c: Setting | InRange(expected, maxBrp, maxSjw, c) && Measurable(expected, c)
      ensures RateError(expected, c) <= 10 ==> r.Found?
      ensures r.Found? ==> !Dominates(expected, c, r.setting)
    {
      InRangeIsSettled(expected, maxBrp, maxSjw, c);
    }
  }

  // ---------------------------------------------------------------------------------------------
  // What the numbers mean
  // ---------------------------------------------------------------------------------------------

  /** A tolerance that both bounds allow: the one of the phase segments, and the one of the jump width. */
  ghost predicate Tolerates(expected: int, s: Setting, d: int) {
    && d * (13 * expected - s.phaseSeg2 * s.brp * 1000) <= s.phaseSeg1 * s.brp * 500000
    && d * expected <= s.sjw * s.brp * 50000
  }

  /** The tolerance of a setting is the largest number that both bounds allow. */
  lemma ToleranceIsLargest(expected: int, s: Setting, d: int)
    requires Measurable(expected, s)
    ensures Tolerates(expected, s, d) <==> d <= Tolerance(expected, s)
  {
    hide Tolerance, Tolerates, Measurable;
    var x, y, z := s.phaseSeg1 * s.brp, s.phaseSeg2 * s.brp, s.sjw * s.brp;
    ToleranceOfProducts(expected, s, x, y, z);
    ToleratesByProducts(expected, s, d, x, y, z);
    AtMostQuotient(x * 500000, 13 * expected - y * 1000, d);
    AtMostQuotient(z * 50000, expected, d);
  }

  lemma ToleranceOfProducts(expected: int, s: Setting, x: int, y: int, z: int)
    requires Measurable(expected, s) && x == s.phaseSeg1 * s.brp && y == s.phaseSeg2 * s.brp && z == s.sjw * s.brp
    ensures 0 < expected && 0 < 13 * expected - y * 1000
    ensures Tolerance(expected, s) == Min(x * 500000 / (13 * expected - y * 1000), z * 50000 / expected)
  {
    assert s.phaseSeg2 * (s.brp * 1000) == y * 1000;
    assert x * 500 * 1000 == x * 500000 && z * 50 * 1000 == z * 50000;
  }

  lemma ToleratesByProducts(expected: int, s: Setting, d: int, x: int, y: int, z: int)
    requires x == s.phaseSeg1 * s.brp && y == s.phaseSeg2 * s.brp && z == s.sjw * s.brp
    ensures Tolerates(expected, s, d) <==> d * (13 * expected - y * 1000) <= x * 500000 && d * expected <= z * 50000
  {
  }

  lemma AtMostQuotient(n: int, q: int, d: int)
    requires 0 < q
    ensures d * q <= n <==> d <= n / q
  {
    if d * q <= n {
      QuotientAtLeast(n, q, d);
    } else {
      QuotientBelow(n, q, d);
    }
  }

  /** The rate error is at most k if and only if the bit time deviates by at most k units of 0.01% (and by
      less than k + 1 upwards, because the quotient is truncated). */
  lemma RateErrorAtMost(expected: int, s: Setting, k: nat)
    requires Measurable(expected, s)
    ensures var n := s.brp * s.TotalQuanta();
      RateError(expected, s) <= k <==> (10000 - k) * n <= 10 * expected < (10001 + k) * n
  {
    var n := s.brp * s.TotalQuanta();
    AtMostQuotient(10 * expected, n, 10000 - k);
    AtMostQuotient(10 * expected, n, 10001 + k);
  }

  /** The bit time is divided into as many quanta as it takes to fill it, or, above 25, as fit into it. */
  lemma QuantaFill(expected: int, brp: int)
    requires 0 < brp
    ensures var q := Quanta(expected, brp);
      if expected <= 25 * (brp * 1000) then (q - 1) * (brp * 1000) < expected <= q * (brp * 1000)
      else q * (brp * 1000) <= expected < (q + 1) * (brp * 1000)
  {
    var d := brp * 1000;
    var fl := expected / d;
    assert fl * brp * 1000 == fl * d;
    AtMostQuotient(expected, d, fl);
    AtMostQuotient(expected, d, fl + 1);
    AtMostQuotient(expected, d, 25);
    AtMostQuotient(expected - 1, d, 25);
  }

  /** No setting in the range allows a tolerance that the winner does not allow, unless it is worse in its
      rate or in its propagation segment. */
  lemma WinnerIsNotUndercut(expected: int, maxBrp: int, maxSjw: int, c: Setting, d: int)
    requires 0 <= expected && InRange(expected, maxBrp, maxSjw, c) && Measurable(expected, c)
    ensures var r := RangedSearch(expected, maxBrp, maxSjw);
      r.Found? && Measurable(expected, r.setting) && Tolerates(expected, c, d)
      && RateError(expected, c) <= RateError(expected, r.setting) && c.propSeg >= r.setting.propSeg
      ==> Tolerates(expected, r.setting, d)
  {
    hide Tolerance, RateError, Quanta, Tolerates, RangedSearch, Measurable, InRange;
    var r := RangedSearch(expected, maxBrp, maxSjw);
    if r.Found? && Measurable(expected, r.setting) {
      InRangeIsSettled(expected, maxBrp, maxSjw, c);
      ToleranceIsLargest(expected, c, d);
      ToleranceIsLargest(expected, r.setting, d);
    }
  }

  lemma LowestIsPositive(expected: int)
    ensures 1 <= LowestBrp(expected)
  {
  }

  lemma InRangeIsSettled(expected: int, maxBrp: int, maxSjw: int, c: Setting)
    requires 0 <= expected && InRange(expected, maxBrp, maxSjw, c) && Measurable(expected, c)
    ensures var r := RangedSearch(expected, maxBrp, maxSjw);
      && (RateError(expected, c) <= 10 ==> r.Found?)
      && (r.Found? ==> !Dominates(expected, c, r.setting))
  {
    hide Tolerance, RateError, Quanta, FoldBrp, LowestBrp;
    var hi := HighestBrp(expected, maxBrp);
    var r := RangedSearch(expected, maxBrp, maxSjw);
    LowestIsPositive(expected);
    WiderJumpIsNoWorse(expected, hi, maxSjw, c);
    var w := c.(sjw := Min(maxSjw, c.phaseSeg2 - 1));
    FoldBrpSettles(expected, hi, maxSjw, LowestBrp(expected), NoSetting, w);
    if r.Found? {
      SettledIsUndominated(expected, w, r.setting);
    }
  }

  /** The winner's prescaler is one of those that are visited. */
  lemma {:induction false} FoldBrpStartsAt(expected: int, maxBrp: int, maxSjw: int, brp: int, best: Best, low: int)
    requires 0 <= expected && 1 <= low <= brp && Sound(expected, maxBrp, maxSjw, best)
    requires best.Found? ==> low <= best.setting.brp
    ensures var r := FoldBrp(expected, maxBrp, maxSjw, brp, best); r.Found? ==> low <= r.setting.brp
    decreases maxBrp - brp
  {
    hide Quanta, Tolerance, RateError, FoldSeg2;
    if brp <= maxBrp {
      var top := TopSeg2(Quanta(expected, brp));
      FoldSeg2StartsAt(expected, maxBrp, maxSjw, brp, top, best, low);
      FoldBrpStartsAt(expected, maxBrp, maxSjw, brp + 1, FoldSeg2(expected, maxBrp, maxSjw, brp, top, best), low);
    }
  }

  lemma {:induction false} FoldSeg2StartsAt(
      expected: int, maxBrp: int, maxSjw: int, brp: int, seg2: int, best: Best, low: int)
    requires 0 <= expected && 1 <= brp <= maxBrp && low <= brp && seg2 <= TopSeg2(Quanta(expected, brp))
    requires Sound(expected, maxBrp, maxSjw, best) && (best.Found? ==> low <= best.setting.brp)
    ensures var r := FoldSeg2(expected, maxBrp, maxSjw, brp, seg2, best); r.Found? ==> low <= r.setting.brp
    decreases seg2
  {
    hide Quanta, Tolerance, RateError, Improves;
    if 2 <= seg2 {
      var c := SettingFor(expected, maxSjw, brp, seg2);
      if IsCandidate(expected, maxBrp, maxSjw, c) {
        CandidateMeasurable(expected, maxBrp, maxSjw, c);
        FoldSeg2StartsAt(expected, maxBrp, maxSjw, brp, seg2 - 1, Choose(expected, best, c), low);
      } else {
        FoldSeg2StartsAt(expected, maxBrp, maxSjw, brp, seg2 - 1, best, low);
      }
    }
  }

  /** Once the propagation segment is too long it stays so for every smaller phase segment 2. */
  lemma {:induction false} LongPropagationEndsPrescaler(expected: int, maxBrp: int, maxSjw: int, brp: int,
          seg2: int, best: Best)
    requires 0 <= expected && 1 <= brp <= maxBrp
    requires seg2 <= TopSeg2(Quanta(expected, brp))
    requires Sound(expected, maxBrp, maxSjw, best)
    requires SettingFor(expected, maxSjw, brp, seg2).propSeg > 8
    ensures FoldSeg2(expected, maxBrp, maxSjw, brp, seg2, best) == best
    decreases seg2
  {
    if 2 <= seg2 {
      LongPropagationEndsPrescaler(expected, maxBrp, maxSjw, brp, seg2 - 1, best);
    }
  }

  // ---------------------------------------------------------------------------------------------
  // The search itself
  // ---------------------------------------------------------------------------------------------

  /** Unsigned subtraction wraps; the result is then read as a signed integer. */
  function SubAsSigned(x: u32, y: u32): int {
    var w := (x as int - y as int) % 0x1_0000_0000;
    if w < 0x8000_0000 then w else w - 0x1_0000_0000
  }

  function AsUnsigned(x: int): u32 { (x % 0x1_0000_0000) as u32 }

  function MinU32(x: u32, y: u32): u32 { if x < y then x else y }

  /** The driver's view of a bit timing, filled in through a pointer. */
  class BitTime {
    var brp: u32
    var propSeg: u32
    var phaseSeg1: u32
    var phaseSeg2: u32
    var sjw: u32
    var sam: bool

    ghost function Value(): Setting
      reads this
    {
      Setting(brp as int, propSeg as int, phaseSeg1 as int, phaseSeg2 as int, sjw as int, sam)
    }
  }

  /** A 32-bit quotient is the exact one. */
  function Quotient(n: u32, d: u32): (r: u32)
    requires 0 < d
    ensures r as int == n as int / d as int
  {
    DivisionShrinks(n as int, d as int);
    n / d
  }

  /** The tolerance that phase segment 1 allows. */
  function Err1(expected: u32, brp: u32, phaseSeg1: u32, phaseSeg2: u32): (r: u32)
    requires 1 <= brp as int <= SAFE_MAX_BRP && 0 < expected as int < 25000 * (SAFE_MAX_BRP + 1)
    requires phaseSeg1 <= 8 && phaseSeg2 <= 8 && phaseSeg2 as int * (brp as int * 1000) <= expected as int
    ensures r as int == phaseSeg1 as int * brp as int * 500 * 1000
                        / (13 * expected as int - phaseSeg2 as int * brp as int * 1000)
  {
    SmallProducts(phaseSeg1 as int, phaseSeg2 as int, brp as int);
    var n: u32 := phaseSeg1 * brp;
    var m: u32 := phaseSeg2 * brp;
    Quotient(n * 500 * 1000, 13 * expected - m * 1000)
  }

  lemma SmallProducts(seg1: int, seg2: int, brp: int)
    requires 0 <= seg1 <= 8 && 0 <= seg2 <= 8 && 1 <= brp <= SAFE_MAX_BRP
    ensures 0 <= seg1 * brp <= 8 * SAFE_MAX_BRP && 0 <= seg2 * brp <= 8 * SAFE_MAX_BRP
    ensures seg2 * (brp * 1000) == seg2 * brp * 1000
  {
    MulMonotone(seg1, 8, brp);
    MulMonotone(seg2, 8, brp);
  }

  /** The tolerance that the jump width allows. */
  function Err2(expected: u32, brp: u32, sjw: u32): (r: u32)
    requires 1 <= brp as int <= SAFE_MAX_BRP && 0 < expected && sjw <= 8
    ensures r as int == sjw as int * brp as int * 50 * 1000 / expected as int
    ensures r < 0x8000_0000
  {
    MulMonotone(sjw as int, 8, brp as int);
    DivisionShrinks(sjw as int * brp as int * 50 * 1000, expected as int);
    sjw * brp * 50 * 1000 / expected
  }

  /** The rate deviation; the subtraction is unsigned and its result is read as a signed integer. */
  function RateDeviation(expected: u32, brp: u32, q: u32): (r: u32)
    requires 1 <= brp as int <= SAFE_MAX_BRP && expected as int < 25000 * (SAFE_MAX_BRP + 1) && 8 <= q <= 25
    ensures 0 < brp as int * q as int
    ensures r as int == Abs(expected as int * 10 / (brp as int * q as int) - 10000)
  {
    MulMonotone(brp as int, SAFE_MAX_BRP, q as int);
    MulMonotone(1, brp as int, q as int);
    DivisionShrinks(expected as int * 10, brp as int * q as int);
    Abs(SubAsSigned(expected * 10 / (brp * q), 10000)) as u32
  }

  /** A 64-bit product and quotient, truncated to 32 bits. */
  function BitTimeInTicks(clock: u32, baudrate: u32): (r: u32)
    requires 0 < baudrate
    ensures r as int == ExpectedBrp(clock as int, baudrate as int)
  {
    AsUnsigned(clock as int * 1000 / baudrate as int)
  }

  /** Both tolerance bounds, from 32-bit fields. */
  method ToleranceOf(expected: u32, brp: u32, phaseSeg1: u32, phaseSeg2: u32, sjw: u32, ghost c: Setting)
      returns (df: u32)
    requires 1 <= brp as int <= SAFE_MAX_BRP && expected as int < 25000 * (SAFE_MAX_BRP + 1)
    requires phaseSeg1 <= 8 && phaseSeg2 <= 8 && sjw <= 8
    requires c.brp == brp as int && c.sjw == sjw as int
    requires c.phaseSeg1 == phaseSeg1 as int && c.phaseSeg2 == phaseSeg2 as int
    requires Measurable(expected as int, c)
    ensures df as int == Tolerance(expected as int, c)
  {
    var err1 := Err1(expected, brp, phaseSeg1, phaseSeg2);
    var err2 := Err2(expected, brp, sjw);
    df := MinU32(err1, err2);
  }

  /** The rate error, from 32-bit fields. */
  method RateErrorOf(expected: u32, brp: u32, quanta: u32, ghost c: Setting) returns (error: u32)
    requires 1 <= brp as int <= SAFE_MAX_BRP && expected as int < 25000 * (SAFE_MAX_BRP + 1) && 8 <= quanta <= 25
    requires c.brp == brp as int && c.TotalQuanta() == quanta as int
    requires Measurable(expected as int, c)
    ensures error as int == RateError(expected as int, c)
  {
    error := RateDeviation(expected, brp, quanta);
  }

  /** What the variables of the search say about the winner so far. */
  ghost predicate Recorded(expected: int, bestError: int, bestDf: int, recorded: Setting, best: Best)
    requires best.Found? ==> Measurable(expected, best.setting)
  {
    match best
    case NoSetting => bestError == -1 && bestDf == -1
    case Found(s) =>
      recorded == s && 0 <= bestError && bestDf == Tolerance(expected, s) && bestError == RateError(expected, s)
  }

  /** Looks for the best bit timing; `bitTime` is written only when a setting is found.
      RangedSearchIsParetoOptimal, and for limits up to 500 RangedSearchIsLossless and
      SearchIsParetoOptimal, say what the found setting is worth. */
  method CalcBitTime(clock: u32, maxBrp: u32, maxSjw: u32, baudrate: u32, bitTime: BitTime) returns (status: Status)
    requires 0 < baudrate && maxBrp as int <= SAFE_MAX_BRP
    modifies bitTime
    ensures var expected := ExpectedBrp(clock as int, baudrate as int);
      var r := RangedSearch(expected, maxBrp as int, maxSjw as int);
      && (status.Ok? <==> r.Found?)
      && bitTime.Value() == (if r.Found? then r.setting else old(bitTime.Value()))
      && (status.RangeError? <==> LowestBrp(expected) > maxBrp as int)
  {
    hide Quanta, Tolerance, RateError, FoldSeg2, SettingFor, Improves, FoldBrp, ExpectedBrp, IsCandidate, Choose;
    var expected := BitTimeInTicks(clock, baudrate);
    ghost var e, sjwLimit := expected as int, maxSjw as int;

    var brpMin: u32 := expected / (1000 * MAX_BIT_TIME);
    if brpMin == 0 {
      brpMin := 1;
    }
    if brpMin > maxBrp {
      UnfoldBrp(e, HighestBrp(e, maxBrp as int), sjwLimit, brpMin as int, NoSetting);
      return RangeError;
    }

    var brpMax: u32 := (expected + 500 * MIN_BIT_TIME) / (1000 * MIN_BIT_TIME);
    if brpMax == 0 {
      brpMax := 1;
    }
    if brpMax > maxBrp {
      brpMax := maxBrp;
    }

    ghost var hi, goal := brpMax as int, RangedSearch(e, maxBrp as int, sjwLimit);
    ghost var best: Best := NoSetting;
    var bestError: int, bestDf: int := -1, -1;
    var brp: u32 := brpMin;
    while brp <= brpMax
      invariant brpMin <= brp && brp as int <= hi + 1
      invariant Sound(e, hi, sjwLimit, best) && Recorded(e, bestError, bestDf, bitTime.Value(), best)
      invariant best.NoSetting? ==> bitTime.Value() == old(bitTime.Value())
      invariant goal == FoldBrp(e, hi, sjwLimit, brp as int, best)
      decreases brpMax as int - brp as int
    {
      UnfoldBrp(e, hi, sjwLimit, brp as int, best);
      var quanta: u32 := ComputeQuanta(expected, brp);
      if quanta < MIN_BIT_TIME || quanta > MAX_BIT_TIME {
        NoQuantaNoCandidate(e, hi, sjwLimit, brp as int, TopSeg2(quanta as int), best);
        brp := brp + 1;
        continue;
      }

      bestError, bestDf, best := SearchPrescaler(expected, hi, maxSjw, brp, quanta, bestError, bestDf, best, bitTime);
      brp := brp + 1;
    }

    UnfoldBrp(e, hi, sjwLimit, brp as int, best);
    status := if bestError < 0 then DomainError else Ok;
  }

  lemma UnfoldBrp(expected: int, maxBrp: int, maxSjw: int, brp: int, best: Best)
    requires 0 <= expected && 1 <= brp
    requires Sound(expected, maxBrp, maxSjw, best)
    ensures FoldBrp(expected, maxBrp, maxSjw, brp, best)
         == if brp > maxBrp then best
            else FoldBrp(expected, maxBrp, maxSjw, brp + 1,
                         FoldSeg2(expected, maxBrp, maxSjw, brp, TopSeg2(Quanta(expected, brp)), best))
  {
  }

  /** The number of quanta that is tried for a prescaler. */
  method ComputeQuanta(expected: u32, brp: u32) returns (quanta: u32)
    requires 1 <= brp as int <= SAFE_MAX_BRP
    ensures quanta as int == Quanta(expected as int, brp as int)
  {
    DivisionShrinks(expected as int, brp as int * 1000);
    quanta := expected / (brp * 1000);
    if quanta < MAX_BIT_TIME {
      MulMonotone(quanta as int, 25, brp as int);
      if quanta * brp * 1000 != expected {
        quanta := quanta + 1;
      }
    }
  }

  lemma {:induction false} NoQuantaNoCandidate(expected: int, maxBrp: int, maxSjw: int, brp: int, seg2: int, best: Best)
    requires 0 <= expected && 1 <= brp <= maxBrp
    requires !(8 <= Quanta(expected, brp) <= 25)
    requires seg2 <= TopSeg2(Quanta(expected, brp))
    requires Sound(expected, maxBrp, maxSjw, best)
    ensures FoldSeg2(expected, maxBrp, maxSjw, brp, seg2, best) == best
    decreases seg2
  {
    if 2 <= seg2 {
      NoQuantaNoCandidate(expected, maxBrp, maxSjw, brp, seg2 - 1, best);
    }
  }

  /** One step of the fold, in terms of what the loop computes. */
  lemma UnfoldSeg2(expected: int, maxBrp: int, maxSjw: int, brp: int, seg2: int, best: Best)
    requires 0 <= expected && 1 <= brp <= maxBrp && 1 <= maxSjw
    requires 8 <= Quanta(expected, brp) <= 25
    requires 2 <= seg2 <= TopSeg2(Quanta(expected, brp))
    requires Sound(expected, maxBrp, maxSjw, best)
    ensures var c := SettingFor(expected, maxSjw, brp, seg2);
      var seg1 := if seg2 % 2 != 0 then seg2 - 1 else seg2;
      && c == Setting(brp, Quanta(expected, brp) - 1 - seg2 - seg1, seg1, seg2, Min(maxSjw, seg2 - 1), seg1 > 3)
      && c.TotalQuanta() == Quanta(expected, brp) && 0 <= c.propSeg
      && Measurable(expected, c)
      && var r := FoldSeg2(expected, maxBrp, maxSjw, brp, seg2, best);
      && (c.propSeg < seg1 ==> r == FoldSeg2(expected, maxBrp, maxSjw, brp, seg2 - 1, best))
      && (seg1 <= c.propSeg <= 8 ==>
            var next := Choose(expected, best, c);
            && Sound(expected, maxBrp, maxSjw, next)
            && r == FoldSeg2(expected, maxBrp, maxSjw, brp, seg2 - 1, next))
  {
    hide Tolerance, RateError, Quanta;
    var c := SettingFor(expected, maxSjw, brp, seg2);
    QuantaBounds(expected, brp);
    assert seg2 * (brp * 1000) <= expected;
    MulPositive(brp, c.TotalQuanta());
  }

  lemma FoldSeg2Done(expected: int, maxBrp: int, maxSjw: int, brp: int, best: Best)
    requires 0 <= expected && 1 <= brp <= maxBrp
    requires 1 <= TopSeg2(Quanta(expected, brp))
    requires Sound(expected, maxBrp, maxSjw, best)
    ensures FoldSeg2(expected, maxBrp, maxSjw, brp, 1, best) == best
  {
  }

  /** The two inner loops: every phase segment 2 of one prescaler, the jump width falling with it.
      `phaseSeg2` is not reset when the jump width changes, and a long propagation segment leaves
      both loops. */
  method SearchPrescaler(expected: u32, ghost hi: int, maxSjw: u32, brp: u32, quanta: u32,
                         bestError0: int, bestDf0: int, ghost best0: Best, bitTime: BitTime)
      returns (bestError: int, bestDf: int, ghost best: Best)
    requires 1 <= brp as int <= hi <= SAFE_MAX_BRP && expected as int < 25000 * (SAFE_MAX_BRP + 1)
    requires 8 <= quanta <= 25 && quanta as int == Quanta(expected as int, brp as int)
    requires Sound(expected as int, hi, maxSjw as int, best0)
    requires Recorded(expected as int, bestError0, bestDf0, bitTime.Value(), best0)
    modifies bitTime
    ensures best == FoldSeg2(expected as int, hi, maxSjw as int, brp as int, TopSeg2(quanta as int), best0)
    ensures Recorded(expected as int, bestError, bestDf, bitTime.Value(), best)
    ensures best.NoSetting? ==> best0.NoSetting? && bitTime.Value() == old(bitTime.Value())
  {
    hide Quanta, Tolerance, RateError, Choose, FoldSeg2, SettingFor, IsCandidate;
    ghost var e, limit, b := expected as int, maxSjw as int, brp as int;
    ghost var goal := FoldSeg2(e, hi, limit, b, TopSeg2(quanta as int), best0);
    bestError, bestDf, best := bestError0, bestDf0, best0;
    QuantaBounds(e, b);
    var phaseSeg2: u32 := MinU32((quanta - 3) / 2, MAX_PHASE_SEG2);
    var sjw: u32 := maxSjw;
    while sjw > 0
      invariant sjw <= maxSjw && 1 <= phaseSeg2 && phaseSeg2 as int <= TopSeg2(quanta as int)
      invariant sjw == maxSjw || phaseSeg2 <= sjw + 1
      invariant Sound(e, hi, limit, best) && Recorded(e, bestError, bestDf, bitTime.Value(), best)
      invariant best.NoSetting? ==> best0.NoSetting? && bitTime.Value() == old(bitTime.Value())
      invariant goal == FoldSeg2(e, hi, limit, b, phaseSeg2 as int, best)
    {
      while phaseSeg2 > sjw
        invariant 1 <= phaseSeg2 && phaseSeg2 as int <= TopSeg2(quanta as int)
        invariant sjw == maxSjw || phaseSeg2 <= sjw + 1
        invariant Sound(e, hi, limit, best) && Recorded(e, bestError, bestDf, bitTime.Value(), best)
        invariant best.NoSetting? ==> best0.NoSetting? && bitTime.Value() == old(bitTime.Value())
        invariant goal == FoldSeg2(e, hi, limit, b, phaseSeg2 as int, best)
        decreases phaseSeg2
      {
        var phaseSeg1 := if phaseSeg2 % 2 != 0 then phaseSeg2 - 1 else phaseSeg2;
        var propSeg := quanta - 1 - phaseSeg2 - phaseSeg1;
        ghost var c := SettingFor(e, limit, b, phaseSeg2 as int);
        UnfoldSeg2(e, hi, limit, b, phaseSeg2 as int, best);
        if propSeg < phaseSeg1 {
          phaseSeg2 := phaseSeg2 - 1;
          continue;
        }
        if propSeg > MAX_PROP_SEG {
          LongPropagationEndsPrescaler(e, hi, limit, b, phaseSeg2 as int, best);
          return;
        }
        bestError, bestDf, best :=
          Offer(expected, brp, propSeg, phaseSeg1, phaseSeg2, sjw, bestError, bestDf, best, c, bitTime);
        phaseSeg2 := phaseSeg2 - 1;
      }
      sjw := sjw - 1;
    }
    if maxSjw > 0 {
      FoldSeg2Done(e, hi, limit, b, best);
    } else {
      NoJumpNoCandidate(e, hi, b, phaseSeg2 as int, best);
    }
  }

  /** One visit: a setting is taken when it loses nothing against the winner so far. */
  method Offer(expected: u32, brp: u32, propSeg: u32, phaseSeg1: u32, phaseSeg2: u32, sjw: u32,
               bestError0: int, bestDf0: int, ghost best0: Best, ghost c: Setting, bitTime: BitTime)
      returns (bestError: int, bestDf: int, ghost best: Best)
    requires 1 <= brp as int <= SAFE_MAX_BRP && expected as int < 25000 * (SAFE_MAX_BRP + 1)
    requires propSeg <= 8 && phaseSeg1 <= 8 && phaseSeg2 <= 8 && sjw <= 8 && 8 <= c.TotalQuanta() <= 25
    requires c == Setting(brp as int, propSeg as int, phaseSeg1 as int, phaseSeg2 as int, sjw as int, phaseSeg1 > 3)
    requires Measurable(expected as int, c)
    requires best0.Found? ==>
               Measurable(expected as int, best0.setting) && RateError(expected as int, best0.setting) <= 10
    requires Recorded(expected as int, bestError0, bestDf0, bitTime.Value(), best0)
    modifies bitTime
    ensures best == Choose(expected as int, best0, c)
    ensures Recorded(expected as int, bestError, bestDf, bitTime.Value(), best)
    ensures best.NoSetting? ==> best0.NoSetting? && bitTime.Value() == old(bitTime.Value())
  {
    hide Tolerance, RateError, Measurable;
    bestError, bestDf, best := bestError0, bestDf0, best0;
    var tolerance := ToleranceOf(expected, brp, phaseSeg1, phaseSeg2, sjw, c);
    var df := tolerance as int;
    if df >= bestDf {
      var error := RateErrorOf(expected, brp, 1 + propSeg + phaseSeg1 + phaseSeg2, c);
      if error > 10 || error > AsUnsigned(bestError) {
        return;
      }
      if error as int == bestError && propSeg < bitTime.propSeg {
        return;
      }
      bestError := error as int;
      bestDf := df;
      bitTime.brp := brp;
      bitTime.propSeg := propSeg;
      bitTime.phaseSeg1 := phaseSeg1;
      bitTime.phaseSeg2 := phaseSeg2;
      bitTime.sjw := sjw;
      bitTime.sam := bitTime.phaseSeg1 > 3;
      best := Found(c);
    }
  }

  lemma {:induction false} NoJumpNoCandidate(expected: int, maxBrp: int, brp: int, seg2: int, best: Best)
    requires 0 <= expected && 1 <= brp <= maxBrp
    requires seg2 <= TopSeg2(Quanta(expected, brp))
    requires Sound(expected, maxBrp, 0, best)
    ensures FoldSeg2(expected, maxBrp, 0, brp, seg2, best) == best
    decreases seg2
  {
    if 2 <= seg2 {
      NoJumpNoCandidate(expected, maxBrp, brp, seg2 - 1, best);
    }
  }
}
