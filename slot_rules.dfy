/** The fixed daily slot grid: 08:30-12:00 and 13:30-17:00 on a 30-minute
    step, both ranges closed at the start and open at the end. */
module SlotRules {
  import opened Calendar

  const MorningStart: TimeOfDay := 8 * SecondsPerHour + 30 * SecondsPerMinute
  const MorningEnd: TimeOfDay := 12 * SecondsPerHour
  const AfternoonStart: TimeOfDay := 13 * SecondsPerHour + 30 * SecondsPerMinute
  const AfternoonEnd: TimeOfDay := 17 * SecondsPerHour
  const SlotStep: int := 30 * SecondsPerMinute

  /** A start time is valid inside one of the two ranges at minute 0 or 30.
      The seconds are not looked at. */
  predicate IsValidSlot(t: TimeOfDay) {
    var inMorning := t >= MorningStart && t < MorningEnd;
    var inAfternoon := t >= AfternoonStart && t < AfternoonEnd;
    if !(inMorning || inAfternoon) then false
    else MinuteOf(t) == 0 || MinuteOf(t) == 30
  }

  /** start, start + step, ... while below end: what a `for (t = start; t < end; t += step)` visits. */
  function StepRange(start: int, end: int, step: int): (r: seq<int>)
    requires step > 0
    decreases end - start
  {
    if start < end then [start] + StepRange(start + step, end, step) else []
  }

  lemma {:induction false} StepRangeAt(start: int, end: int, step: int, i: nat)
    requires step > 0 && i < |StepRange(start, end, step)|
    ensures StepRange(start, end, step)[i] == start + i * step
    ensures start <= StepRange(start, end, step)[i] < end
    decreases end - start
  {
    if i > 0 {
      StepRangeAt(start + step, end, step, i - 1);
    }
  }

  /** StepRange is strictly increasing. */
  lemma {:induction false} StepRangeIncreasing(start: int, end: int, step: int, i: nat, j: nat)
    requires step > 0 && i < j < |StepRange(start, end, step)|
    ensures StepRange(start, end, step)[i] < StepRange(start, end, step)[j]
    decreases end - start
  {
    if i == 0 {
      StepRangeAt(start + step, end, step, j - 1);
    } else {
      StepRangeIncreasing(start + step, end, step, i - 1, j - 1);
    }
  }

  lemma {:induction false} StepRangeLength(start: int, step: int, n: nat)
    requires step > 0
    ensures |StepRange(start, start + n * step, step)| == n
    decreases n
  {
    if n > 0 {
      assert (start + step) + (n - 1) * step == start + n * step;
      StepRangeLength(start + step, step, n - 1);
    }
  }

  /** The canonical day: 08:30, 09:00, ..., 11:30, 13:30, ..., 16:30. */
  function DailySlots(): (r: seq<TimeOfDay>)
    ensures |r| == 14
  {
    seq(14, i requires 0 <= i < 14 =>
      (if i < 7 then MorningStart + i * SlotStep else AfternoonStart + (i - 7) * SlotStep) as TimeOfDay)
  }

  /** The two `for` loops of the enumerator, collected in order. */
  method EnumerateDailySlots() returns (slots: seq<TimeOfDay>)
    ensures slots == DailySlots()
  {
    slots := [];
    var t: TimeOfDay := MorningStart;
    while t < MorningEnd
      invariant |slots| <= 7 && t == MorningStart + |slots| * SlotStep
      invariant slots == DailySlots()[..|slots|]
    {
      slots := slots + [t];
      t := t + SlotStep;
    }
    t := AfternoonStart;
    while t < AfternoonEnd
      invariant 7 <= |slots| <= 14 && t == AfternoonStart + (|slots| - 7) * SlotStep
      invariant slots == DailySlots()[..|slots|]
    {
      slots := slots + [t];
      t := t + SlotStep;
    }
  }

  /** The enumerator lists the two ranges, each stepped by 30 minutes. */
  lemma DailySlotsAreTheTwoRanges()
    ensures DailySlots() == StepRange(MorningStart, MorningEnd, SlotStep) + StepRange(AfternoonStart, AfternoonEnd, SlotStep)
  {
    var m := StepRange(MorningStart, MorningEnd, SlotStep);
    var a := StepRange(AfternoonStart, AfternoonEnd, SlotStep);
    StepRangeLength(MorningStart, SlotStep, 7);
    StepRangeLength(AfternoonStart, SlotStep, 7);
    assert |m| == 7 && |a| == 7;
    forall i | 0 <= i < 7 ensures m[i] == MorningStart + i * SlotStep && a[i] == AfternoonStart + i * SlotStep {
      StepRangeAt(MorningStart, MorningEnd, SlotStep, i);
      StepRangeAt(AfternoonStart, AfternoonEnd, SlotStep, i);
    }
    assert forall i :: 0 <= i < 14 ==> DailySlots()[i] == (m + a)[i];
  }

  /** Fourteen strictly increasing times from 08:30 to 16:30. */
  lemma DailySlotsShape()
    ensures |DailySlots()| == 14
    ensures DailySlots()[0] == MorningStart && DailySlots()[6] == HourMinute(11, 30)
    ensures DailySlots()[7] == AfternoonStart && DailySlots()[13] == HourMinute(16, 30)
    ensures forall i, j :: 0 <= i < j < 14 ==> DailySlots()[i] < DailySlots()[j]
  {
  }

  /** The fourteen start times, in seconds since midnight. */
  lemma DailySlotsValues()
    ensures DailySlots() == [30600, 32400, 34200, 36000, 37800, 39600, 41400,
                             48600, 50400, 52200, 54000, 55800, 57600, 59400]
  {
  }

  /** Validator and enumerator agree on every whole-minute time. */
  lemma ValidSlotIffEnumerated(t: TimeOfDay)
    requires t % SecondsPerMinute == 0
    ensures IsValidSlot(t) <==> t in DailySlots()
  {
    DailySlotsValues();
    if IsValidSlot(t) {
      var m := t / SecondsPerMinute;
      assert t == 60 * m;
      var q := m / 60;
      assert m == 60 * q + MinuteOf(t);
      var j := 2 * q + MinuteOf(t) / 30;
      assert t == SlotStep * j;
      assert 17 <= j < 24 || 27 <= j < 34;
    }
  }

  /** Every enumerated time is valid. */
  lemma EnumeratedSlotsAreValid(i: nat)
    requires i < |DailySlots()|
    ensures IsValidSlot(DailySlots()[i])
  {
    var t := DailySlots()[i];
    assert t % SecondsPerMinute == 0;
    ValidSlotIffEnumerated(t);
  }

  /** The ends of both ranges are not valid start times. */
  lemma RangeEndsAreInvalid()
    ensures !IsValidSlot(MorningEnd) && !IsValidSlot(AfternoonEnd)
    ensures !IsValidSlot(HourMinute(8, 0)) && !IsValidSlot(HourMinute(13, 0))
  {
  }

  /** 08:30:15 is accepted by the validator but is not on the enumerated grid. */
  lemma SecondsAreIgnored()
    ensures IsValidSlot(MorningStart + 15) && MorningStart + 15 !in DailySlots()
  {
    assert MinuteOf(MorningStart + 15) == 30;
    forall i | 0 <= i < 14 ensures DailySlots()[i] % SecondsPerMinute == 0 { }
  }
}
