/** The whole search on one input: clock, bit rate and limits of a usual board. */
module CanExample {
  import opened CanBitTiming

  const EXAMPLE: Setting := Setting(1, 7, 4, 4, 3, true)

  /** One visit of the example: what is offered, and what becomes of the winner. */
  ghost predicate Visits(brp: int, seg2: int, best: Best, next: Best) {
    && Sound(16000, 2, 4, best) && Sound(16000, 2, 4, next)
    && 1 <= brp <= 2 && 2 <= seg2 <= TopSeg2(Quanta(16000, brp))
    && FoldSeg2(16000, 2, 4, brp, seg2, best) == FoldSeg2(16000, 2, 4, brp, seg2 - 1, next)
  }

  lemma SkippedVisit(brp: int, seg2: int, best: Best)
    requires 1 <= brp <= 2 && 2 <= seg2 <= TopSeg2(Quanta(16000, brp)) && Sound(16000, 2, 4, best)
    requires !IsCandidate(16000, 2, 4, SettingFor(16000, 4, brp, seg2))
    ensures Visits(brp, seg2, best, best)
  {
    hide Quanta, IsCandidate, SettingFor, Sound;
  }

  lemma TakenVisit(brp: int, seg2: int, best: Best, c: Setting)
    requires 1 <= brp <= 2 && 2 <= seg2 <= TopSeg2(Quanta(16000, brp)) && Sound(16000, 2, 4, best)
    requires c == SettingFor(16000, 4, brp, seg2) && IsCandidate(16000, 2, 4, c) && Measurable(16000, c)
    ensures Sound(16000, 2, 4, Choose(16000, best, c)) && Visits(brp, seg2, best, Choose(16000, best, c))
  {
    hide Quanta, IsCandidate, SettingFor, Choose, Tolerance, RateError;
    ChosenIsSound(16000, 2, 4, brp, seg2, best);
  }

  lemma ExampleQuanta()
    ensures Quanta(16000, 1) == 16 && Quanta(16000, 2) == 8
    ensures TopSeg2(16) == 6 && TopSeg2(8) == 2
  {
  }

  const FIRST: Setting := Setting(1, 6, 4, 5, 4, true)
  const SECOND: Setting := Setting(2, 3, 2, 2, 1, false)

  lemma ExampleSettings()
    ensures SettingFor(16000, 4, 1, 5) == FIRST && SettingFor(16000, 4, 1, 4) == EXAMPLE
    ensures SettingFor(16000, 4, 2, 2) == SECOND
  {
    hide Quanta;
    ExampleQuanta();
  }

  lemma CandidateWith(s: Setting, q: int)
    requires 1 <= s.brp <= 2 && Quanta(16000, s.brp) == q && 8 <= q <= 25 && s.TotalQuanta() == q
    requires 2 <= s.phaseSeg2 <= TopSeg2(q) && s.phaseSeg1 == s.phaseSeg2 - s.phaseSeg2 % 2
    requires s.phaseSeg1 <= s.propSeg <= 8 && 1 <= s.sjw <= Min(4, s.phaseSeg2 - 1) && s.sam == (s.phaseSeg1 > 3)
    ensures IsCandidate(16000, 2, 4, s)
  {
    hide Quanta, TopSeg2;
  }

  lemma ExampleCandidates()
    ensures IsCandidate(16000, 2, 4, FIRST) && IsCandidate(16000, 2, 4, EXAMPLE) && IsCandidate(16000, 2, 4, SECOND)
  {
    hide Quanta, TopSeg2, IsCandidate;
    ExampleQuanta();
    CandidateWith(FIRST, 16);
    CandidateWith(EXAMPLE, 16);
    CandidateWith(SECOND, 8);
  }

  lemma ExampleSkips(seg2: int)
    requires seg2 == 6 || seg2 == 3 || seg2 == 2
    ensures !IsCandidate(16000, 2, 4, SettingFor(16000, 4, 1, seg2))
  {
    hide Quanta;
    ExampleQuanta();
  }

  /** Both settings of prescaler 1 tolerate 9 and meet the rate; the second one has more time for propagation. */
  lemma ExampleFigures()
    ensures Measurable(16000, FIRST) && Measurable(16000, EXAMPLE) && Measurable(16000, SECOND)
    ensures Tolerance(16000, FIRST) == 9 && Tolerance(16000, EXAMPLE) == 9 && Tolerance(16000, SECOND) == 6
    ensures RateError(16000, FIRST) == 0 && RateError(16000, EXAMPLE) == 0 && RateError(16000, SECOND) == 0
  {
  }

  lemma ExampleChoices()
    ensures Measurable(16000, FIRST) && Measurable(16000, EXAMPLE) && Measurable(16000, SECOND)
    ensures Choose(16000, NoSetting, FIRST) == Found(FIRST)
    ensures Choose(16000, Found(FIRST), EXAMPLE) == Found(EXAMPLE)
    ensures Choose(16000, Found(EXAMPLE), SECOND) == Found(EXAMPLE)
  {
    hide Tolerance, RateError, Measurable;
    ExampleFigures();
  }

  /** Prescaler 1: of the five phase segments 2, two give a setting; the second one takes over. */
  lemma FirstPrescaler()
    ensures Sound(16000, 2, 4, NoSetting) && Sound(16000, 2, 4, Found(EXAMPLE))
    ensures TopSeg2(Quanta(16000, 1)) == 6
    ensures FoldSeg2(16000, 2, 4, 1, 6, NoSetting) == Found(EXAMPLE)
  {
    hide FoldSeg2, Quanta, TopSeg2, SettingFor, IsCandidate, Measurable, Choose, Tolerance, RateError, FIRST, EXAMPLE;
    ExampleQuanta();
    ExampleSettings();
    ExampleCandidates();
    ExampleChoices();
    ExampleSkips(6);
    ExampleSkips(3);
    ExampleSkips(2);
    SkippedVisit(1, 6, NoSetting);
    TakenVisit(1, 5, NoSetting, FIRST);
    TakenVisit(1, 4, Found(FIRST), EXAMPLE);
    SkippedVisit(1, 3, Found(EXAMPLE));
    SkippedVisit(1, 2, Found(EXAMPLE));
    FoldSeg2Done(16000, 2, 4, 1, Found(EXAMPLE));
  }

  lemma SecondPrescaler()
    requires Sound(16000, 2, 4, Found(EXAMPLE))
    ensures TopSeg2(Quanta(16000, 2)) == 2
    ensures FoldSeg2(16000, 2, 4, 2, 2, Found(EXAMPLE)) == Found(EXAMPLE)
  {
    hide FoldSeg2, Quanta, TopSeg2, SettingFor, IsCandidate, Measurable, Choose, Tolerance, RateError, SECOND, EXAMPLE;
    ExampleQuanta();
    ExampleSettings();
    ExampleCandidates();
    ExampleChoices();
    TakenVisit(2, 2, Found(EXAMPLE), SECOND);
    FoldSeg2Done(16000, 2, 4, 2, Found(EXAMPLE));
  }

  lemma ExampleRange()
    ensures LowestBrp(16000) == 1 && HighestBrp(16000, 64) == 2
  {
  }

  /** With a clock of 8 MHz, 500 kbit/s and the limits 64 and 4, the winner has 16 quanta, of which the
      propagation segment takes 7, and each phase segment 4. */
  lemma ExampleIsFound()
    ensures ExpectedBrp(8000000, 500000) == 16000
    ensures RangedSearch(16000, 64, 4) == Found(Setting(1, 7, 4, 4, 3, true))
  {
    hide FoldSeg2, FoldBrp, Quanta, TopSeg2, Sound, LowestBrp, HighestBrp, Measurable;
    ExampleRange();
    FirstPrescaler();
    SecondPrescaler();
    UnfoldBrp(16000, 2, 4, 1, NoSetting);
    UnfoldBrp(16000, 2, 4, 2, Found(EXAMPLE));
    UnfoldBrp(16000, 2, 4, 3, Found(EXAMPLE));
  }
}
