/** The slot pre-materialiser. From 08:00 on a Friday it fills the TimeSlots
    table for the coming Monday..Sunday: for every active salon, every day,
    every start time of the two daily ranges stepped by the salon's slot
    length, and every chair, one free row, unless the saved table already
    holds that (salon, chair, date, start) tuple. The run is skipped when any
    row is already dated that Monday. The clock is a parameter. */
module WeeklySlotGenerator {
  import opened Wrappers
  import opened Calendar
  import opened Entities
  import opened Data
  import opened SlotRules
  import Linq
  import BookingWindowService

  /** The earliest time of day at which a Friday run generates. */
  const RunFrom: TimeOfDay := 8 * SecondsPerHour

  /** TryGenerateAsync's two guards: a Friday, at 08:00 or later. */
  predicate ShouldRun(now: Instant) {
    DayOfWeek(DateOf(now)) == Friday && TimeOf(now) >= RunFrom
  }

  /** today + ((Monday - dow + 7) % 7). The operand is never negative, so the
      source's truncating % and the Euclidean one agree. */
  function NextMonday(today: Day): (r: Day)
    ensures DayOfWeek(r) == Monday
    ensures 0 <= r - today <= 6
    ensures DayOfWeek(today) == Friday ==> r == today + 3
  {
    var k := (Monday - DayOfWeek(today) + 7) % 7;
    BookingWindowService.DayOfWeekAdd(today, k);
    today + k
  }

  // ---------------------------------------------------------------------
  // The rows a run means to have

  /** One row the run wants: salon, chair, date, and the TimeSpan start and end in seconds. */
  datatype SlotWant = SlotWant(salonId: int, chairNo: int, date: Day, startTime: int, endTime: int)

  /** The tuple the existence check compares: salon, chair (KoltukId), date, start. */
  function SlotKey(x: TimeSlot): (int, int, Day, int) {
    (x.salonId, x.koltukId, x.slotDate, x.startTime)
  }

  function WantKey(w: SlotWant): (int, int, Day, int) {
    (w.salonId, w.chairNo, w.date, w.startTime)
  }

  /** db.TimeSlots.Any(x => same salon, chair, date and start). */
  function HasSlot(rows: seq<TimeSlot>, w: SlotWant): (r: bool)
    ensures r <==> exists i :: 0 <= i < |rows| && SlotKey(rows[i]) == WantKey(w)
  {
    Linq.Any(rows, (x: TimeSlot) => SlotKey(x) == WantKey(w))
  }

  /** The slot length in seconds. */
  function StepOf(s: Salon): int {
    s.slotMinutes * SecondsPerMinute
  }

  predicate PositiveSteps(salons: seq<Salon>) {
    forall i :: 0 <= i < |salons| ==> salons[i].slotMinutes > 0
  }

  /** Chairs 1..n at one start time. */
  function ChairWants(s: Salon, date: Day, t: int, n: int): seq<SlotWant>
    decreases n
  {
    if n <= 0 then [] else ChairWants(s, date, t, n - 1) + [SlotWant(s.id, n, date, t, t + StepOf(s))]
  }

  /** Every chair at each of the given start times, time by time. */
  function RangeWants(s: Salon, date: Day, times: seq<int>): seq<SlotWant> {
    if times == [] then []
    else RangeWants(s, date, times[..|times| - 1]) + ChairWants(s, date, times[|times| - 1], s.chairCount)
  }

  /** The start times of the morning range, [08:30, 12:00). */
  function MorningTimes(s: Salon): seq<int>
    requires s.slotMinutes > 0
  {
    StepRange(MorningStart, MorningEnd, StepOf(s))
  }

  /** The start times of the afternoon range, [13:30, 17:00). */
  function AfternoonTimes(s: Salon): seq<int>
    requires s.slotMinutes > 0
  {
    StepRange(AfternoonStart, AfternoonEnd, StepOf(s))
  }

  function DayTimes(s: Salon): seq<int>
    requires s.slotMinutes > 0
  {
    MorningTimes(s) + AfternoonTimes(s)
  }

  /** The two GenerateSlots calls of one day. */
  function DayWants(s: Salon, date: Day): seq<SlotWant>
    requires s.slotMinutes > 0
  {
    RangeWants(s, date, MorningTimes(s)) + RangeWants(s, date, AfternoonTimes(s))
  }

  /** The first `days` days from Monday, day by day. */
  function SalonWants(s: Salon, monday: Day, days: nat): seq<SlotWant>
    requires s.slotMinutes > 0
  {
    if days == 0 then [] else SalonWants(s, monday, days - 1) + DayWants(s, monday + days - 1)
  }

  /** The generator's loop `for (int d = 0; d < 7; d++)`. */
  const DaysPerWeek: nat := 7

  /** Every salon's week, salon by salon. */
  function WeekWants(salons: seq<Salon>, monday: Day): seq<SlotWant>
    requires PositiveSteps(salons)
  {
    if salons == [] then []
    else WeekWants(salons[..|salons| - 1], monday) + SalonWants(salons[|salons| - 1], monday, DaysPerWeek)
  }

  /** The free row Add creates for a want. */
  function NewSlot(id: int, w: SlotWant): TimeSlot {
    TimeSlot(id, w.salonId, w.chairNo, w.date, w.startTime, w.endTime, Bos, None)
  }

  /** The table after the Add calls for the wants in order, each skipped when
      the saved table (what the database holds before SaveChanges) has its tuple. */
  function AddMissing(rows: seq<TimeSlot>, ws: seq<SlotWant>, saved: seq<TimeSlot>): seq<TimeSlot> {
    if ws == [] then rows else AddOne(AddMissing(rows, ws[..|ws| - 1], saved), ws[|ws| - 1], saved)
  }

  /** One step of the loop: Add the free row unless the saved table has the tuple. */
  function AddOne(rows: seq<TimeSlot>, w: SlotWant, saved: seq<TimeSlot>): seq<TimeSlot> {
    if HasSlot(saved, w) then rows else rows + [NewSlot(|rows| + 1, w)]
  }

  predicate IsActiveSalon(s: Salon) {
    s.isActive
  }

  /** Salons.Where(s => s.IsActive). */
  function ActiveSalons(salons: seq<Salon>): (r: seq<Salon>)
    ensures forall s :: s in r <==> s in salons && s.isActive
  {
    Linq.Where(salons, IsActiveSalon)
  }

  lemma ActiveSalonsDistinct(salons: seq<Salon>)
    requires forall i, j :: 0 <= i < j < |salons| ==> salons[i] != salons[j]
    ensures forall a, b :: 0 <= a < b < |ActiveSalons(salons)| ==> ActiveSalons(salons)[a] != ActiveSalons(salons)[b]
  {
    Linq.WhereDistinct(salons, IsActiveSalon);
  }

  /** The whole run: the guards, the Monday check, then the generation. */
  function GenerateRun(rows: seq<TimeSlot>, salons: seq<Salon>, now: Instant): seq<TimeSlot>
    requires PositiveSteps(ActiveSalons(salons))
  {
    if !ShouldRun(now) then rows
    else
      var monday := NextMonday(DateOf(now));
      if !MondayFree(rows, monday) then rows
      else AddMissing(rows, WeekWants(ActiveSalons(salons), monday), rows)
  }

  // ---------------------------------------------------------------------
  // The run, as the source performs it

  lemma GenerateRunDue(rows: seq<TimeSlot>, salons: seq<Salon>, now: Instant)
    requires PositiveSteps(ActiveSalons(salons))
    requires ShouldRun(now) && MondayFree(rows, NextMonday(DateOf(now)))
    ensures GenerateRun(rows, salons, now) == AddMissing(rows, WeekWants(ActiveSalons(salons), NextMonday(DateOf(now))), rows)
  {
  }

  /** TryGenerateAsync; returns whether it went on to GenerateWeekAsync. */
  method TryGenerate(db: AppDb, now: Instant) returns (generated: bool)
    requires db.Valid()
    requires forall s :: s in db.salons && s.isActive ==> s.slotMinutes > 0
    modifies db`timeSlots
    ensures db.Valid()
    ensures generated <==> ShouldRun(now) && MondayFree(old(db.timeSlots), NextMonday(DateOf(now)))
    ensures PositiveSteps(ActiveSalons(db.salons)) && db.timeSlots == GenerateRun(old(db.timeSlots), db.salons, now)
  {
    assert PositiveSteps(ActiveSalons(db.salons)) by {
      var act := ActiveSalons(db.salons);
      forall i | 0 <= i < |act| ensures act[i].slotMinutes > 0 {
        assert act[i] in act;
      }
    }
    if DayOfWeek(DateOf(now)) != Friday {
      return false;
    }
    if TimeOf(now) < RunFrom {
      return false;
    }
    var nextMonday := NextMonday(DateOf(now));
    var alreadyExists := !MondayFree(db.timeSlots, nextMonday);
    if alreadyExists {
      return false;
    }
    GenerateRunDue(db.timeSlots, db.salons, now);
    GenerateWeek(db, nextMonday);
    generated := true;
  }

  /** GenerateWeekAsync: active salons, then days 0..6, then the two ranges.
      The existence checks all read the table as it was before the first Add,
      since SaveChanges comes once, after the loops. */
  method GenerateWeek(db: AppDb, monday: Day)
    requires TimeSlotIds(db.timeSlots)
    requires PositiveSteps(ActiveSalons(db.salons))
    modifies db`timeSlots
    ensures TimeSlotIds(db.timeSlots)
    ensures db.timeSlots == AddMissing(old(db.timeSlots), WeekWants(ActiveSalons(db.salons), monday), old(db.timeSlots))
  {
    var salons := ActiveSalons(db.salons);
    var saved := db.timeSlots;
    var i := 0;
    assert salons[..0] == [];
    while i < |salons|
      invariant 0 <= i <= |salons|
      invariant TimeSlotIds(db.timeSlots)
      invariant PositiveSteps(salons[..i])
      invariant db.timeSlots == AddMissing(saved, WeekWants(salons[..i], monday), saved)
    {
      WeekWantsSnoc(salons, monday, i);
      GenerateSalonWeek(db, salons[i], monday, saved);
      AddMissingConcat(saved, WeekWants(salons[..i], monday), SalonWants(salons[i], monday, DaysPerWeek), saved);
      i := i + 1;
    }
    assert salons[..i] == salons;
  }

  /** The day loop of GenerateWeekAsync for one salon. */
  method GenerateSalonWeek(db: AppDb, salon: Salon, monday: Day, saved: seq<TimeSlot>)
    requires TimeSlotIds(db.timeSlots) && salon.slotMinutes > 0
    modifies db`timeSlots
    ensures TimeSlotIds(db.timeSlots)
    ensures db.timeSlots == AddMissing(old(db.timeSlots), SalonWants(salon, monday, DaysPerWeek), saved)
  {
    var day := 0;
    while day < 7
      invariant 0 <= day <= 7
      invariant TimeSlotIds(db.timeSlots)
      invariant db.timeSlots == AddMissing(old(db.timeSlots), SalonWants(salon, monday, day), saved)
    {
      var date := monday + day;
      ghost var upTo := SalonWants(salon, monday, day);
      ghost var morning := RangeWants(salon, date, MorningTimes(salon));
      ghost var afternoon := RangeWants(salon, date, AfternoonTimes(salon));
      GenerateSlots(db, salon, date, MorningStart, MorningEnd, saved);
      AddMissingConcat(old(db.timeSlots), upTo, morning, saved);
      GenerateSlots(db, salon, date, AfternoonStart, AfternoonEnd, saved);
      AddMissingConcat(old(db.timeSlots), upTo + morning, afternoon, saved);
      SalonWantsNextDay(salon, monday, day);
      AppendAssoc(upTo, morning, afternoon);
      day := day + 1;
    }
  }

  /** GenerateSlots: start times from start while below end, stepping by the
      salon's slot length; chairs 1..ChairCount at each. The existence check
      reads the saved table. */
  method GenerateSlots(db: AppDb, salon: Salon, date: Day, start: int, end: int, saved: seq<TimeSlot>)
    requires TimeSlotIds(db.timeSlots) && salon.slotMinutes > 0
    modifies db`timeSlots
    ensures TimeSlotIds(db.timeSlots)
    ensures db.timeSlots == AddMissing(old(db.timeSlots), RangeWants(salon, date, StepRange(start, end, StepOf(salon))), saved)
  {
    var step := StepOf(salon);
    ghost var visited: seq<int> := [];
    var time := start;
    while time < end
      invariant visited + StepRange(time, end, step) == StepRange(start, end, step)
      invariant TimeSlotIds(db.timeSlots)
      invariant db.timeSlots == AddMissing(old(db.timeSlots), RangeWants(salon, date, visited), saved)
      decreases end - time
    {
      assert StepRange(time, end, step) == [time] + StepRange(time + step, end, step);
      AppendAssoc(visited, [time], StepRange(time + step, end, step));
      GenerateChairs(db, salon, date, time, saved);
      AddMissingConcat(old(db.timeSlots), RangeWants(salon, date, visited), ChairWants(salon, date, time, salon.chairCount), saved);
      RangeWantsSnoc(salon, date, visited, time);
      visited := visited + [time];
      time := time + step;
    }
    assert StepRange(time, end, step) == [];
    assert visited + [] == visited;
  }

  /** The inner loop of GenerateSlots: chairs 1..ChairCount at one start time. */
  method GenerateChairs(db: AppDb, salon: Salon, date: Day, time: int, saved: seq<TimeSlot>)
    requires TimeSlotIds(db.timeSlots)
    modifies db`timeSlots
    ensures TimeSlotIds(db.timeSlots)
    ensures db.timeSlots == AddMissing(old(db.timeSlots), ChairWants(salon, date, time, salon.chairCount), saved)
  {
    var koltukNo := 1;
    while koltukNo <= salon.chairCount
      invariant 1 <= koltukNo && (koltukNo == 1 || koltukNo <= salon.chairCount + 1)
      invariant TimeSlotIds(db.timeSlots)
      invariant db.timeSlots == AddMissing(old(db.timeSlots), ChairWants(salon, date, time, koltukNo - 1), saved)
    {
      GenerateChair(db, SlotWant(salon.id, koltukNo, date, time, time + StepOf(salon)), saved);
      ChairWantsSnoc(old(db.timeSlots), salon, date, time, koltukNo, saved);
      koltukNo := koltukNo + 1;
    }
    assert ChairWants(salon, date, time, koltukNo - 1) == ChairWants(salon, date, time, salon.chairCount);
  }

  /** The body of the chair loop: the Any query on the stored table, then Add
      when it finds nothing. */
  method GenerateChair(db: AppDb, w: SlotWant, saved: seq<TimeSlot>)
    requires TimeSlotIds(db.timeSlots)
    modifies db`timeSlots
    ensures TimeSlotIds(db.timeSlots)
    ensures db.timeSlots == AddOne(old(db.timeSlots), w, saved)
  {
    var slotExists := HasSlot(saved, w);
    if !slotExists {
      db.AddTimeSlot(NewSlot(|db.timeSlots| + 1, w));
    }
  }

  // ---------------------------------------------------------------------
  // AddMissing

  lemma AppendAssoc<T>(a: seq<T>, b: seq<T>, c: seq<T>)
    ensures (a + b) + c == a + (b + c)
  {
  }

  lemma WeekWantsSnoc(salons: seq<Salon>, monday: Day, i: nat)
    requires PositiveSteps(salons) && i < |salons|
    ensures PositiveSteps(salons[..i]) && PositiveSteps(salons[..i + 1])
    ensures WeekWants(salons[..i + 1], monday) == WeekWants(salons[..i], monday) + SalonWants(salons[i], monday, DaysPerWeek)
  {
    assert salons[..i + 1][..i] == salons[..i];
  }

  lemma ChairWantsSnoc(rows: seq<TimeSlot>, s: Salon, date: Day, t: int, n: int, saved: seq<TimeSlot>)
    requires n >= 1
    ensures AddMissing(rows, ChairWants(s, date, t, n), saved) ==
            AddOne(AddMissing(rows, ChairWants(s, date, t, n - 1), saved), SlotWant(s.id, n, date, t, t + StepOf(s)), saved)
  {
    AddMissingSnoc(rows, ChairWants(s, date, t, n - 1), SlotWant(s.id, n, date, t, t + StepOf(s)), saved);
  }

  lemma RangeWantsSnoc(s: Salon, date: Day, times: seq<int>, t: int)
    ensures RangeWants(s, date, times + [t]) == RangeWants(s, date, times) + ChairWants(s, date, t, s.chairCount)
  {
    assert (times + [t])[..|times|] == times;
  }

  lemma SalonWantsNextDay(s: Salon, monday: Day, day: nat)
    requires s.slotMinutes > 0
    ensures SalonWants(s, monday, day + 1) ==
      SalonWants(s, monday, day) + (RangeWants(s, monday + day, MorningTimes(s)) + RangeWants(s, monday + day, AfternoonTimes(s)))
  {
  }

  lemma AddMissingSnoc(rows: seq<TimeSlot>, ws: seq<SlotWant>, w: SlotWant, saved: seq<TimeSlot>)
    ensures AddMissing(rows, ws + [w], saved) == AddOne(AddMissing(rows, ws, saved), w, saved)
  {
    assert (ws + [w])[..|ws|] == ws;
  }

  /** Adding the wants a then b is adding a + b. */
  lemma {:induction false} AddMissingConcat(rows: seq<TimeSlot>, a: seq<SlotWant>, b: seq<SlotWant>, saved: seq<TimeSlot>)
    ensures AddMissing(AddMissing(rows, a, saved), b, saved) == AddMissing(rows, a + b, saved)
    decreases |b|
  {
    if b != [] {
      var front := b[..|b| - 1];
      var w := b[|b| - 1];
      assert b == front + [w];
      AddMissingConcat(rows, a, front, saved);
      assert a + b == (a + front) + [w];
      AddMissingSnoc(rows, a + front, w, saved);
    } else {
      assert a + b == a;
    }
  }

  /** The run only appends. */
  lemma {:induction false} AddMissingKeepsRows(rows: seq<TimeSlot>, ws: seq<SlotWant>, saved: seq<TimeSlot>)
    ensures |AddMissing(rows, ws, saved)| >= |rows|
    ensures AddMissing(rows, ws, saved)[..|rows|] == rows
    decreases |ws|
  {
    if ws != [] {
      AddMissingKeepsRows(rows, ws[..|ws| - 1], saved);
    }
  }

  /** Every appended row is the free row of a want whose tuple the saved table lacks. */
  lemma {:induction false} AddMissingNewRows(rows: seq<TimeSlot>, ws: seq<SlotWant>, saved: seq<TimeSlot>, i: nat)
    requires |rows| <= i < |AddMissing(rows, ws, saved)|
    ensures exists k :: 0 <= k < |ws| && !HasSlot(saved, ws[k]) && AddMissing(rows, ws, saved)[i] == NewSlot(i + 1, ws[k])
    decreases |ws|
  {
    var front := ws[..|ws| - 1];
    var r := AddMissing(rows, front, saved);
    if i < |r| {
      AddMissingNewRows(rows, front, saved, i);
      var k :| 0 <= k < |front| && !HasSlot(saved, front[k]) && r[i] == NewSlot(i + 1, front[k]);
      assert ws[k] == front[k];
    } else {
      assert ws[|ws| - 1] == ws[|ws| - 1];
    }
  }

  /** Every want's tuple is in the saved table or in the result. */
  lemma {:induction false} AddMissingCovers(rows: seq<TimeSlot>, ws: seq<SlotWant>, saved: seq<TimeSlot>, w: SlotWant)
    requires w in ws
    ensures HasSlot(saved, w) || HasSlot(AddMissing(rows, ws, saved), w)
    decreases |ws|
  {
    var front := ws[..|ws| - 1];
    var r := AddMissing(rows, front, saved);
    var last := ws[|ws| - 1];
    if w != last {
      assert ws == front + [last];
      assert w in front;
      AddMissingCovers(rows, front, saved, w);
      if !HasSlot(saved, w) {
        var i :| 0 <= i < |r| && SlotKey(r[i]) == WantKey(w);
        assert AddMissing(rows, ws, saved)[i] == r[i];
      }
    } else if !HasSlot(saved, w) {
      assert SlotKey(AddMissing(rows, ws, saved)[|r|]) == WantKey(w);
    }
  }

  /** Wants whose tuples are all saved add nothing. */
  lemma {:induction false} AddMissingNothingNew(rows: seq<TimeSlot>, ws: seq<SlotWant>, saved: seq<TimeSlot>)
    requires forall k :: 0 <= k < |ws| ==> HasSlot(saved, ws[k])
    ensures AddMissing(rows, ws, saved) == rows
    decreases |ws|
  {
    if ws != [] {
      AddMissingNothingNew(rows, ws[..|ws| - 1], saved);
    }
  }

  predicate SlotKeysUnique(s: seq<TimeSlot>) {
    forall i, j :: 0 <= i < j < |s| ==> SlotKey(s[i]) != SlotKey(s[j])
  }

  predicate DistinctWants(ws: seq<SlotWant>) {
    forall i, j :: 0 <= i < j < |ws| ==> WantKey(ws[i]) != WantKey(ws[j])
  }

  /** Wants with distinct tuples, checked against the table itself, introduce no duplicate tuple. */
  lemma {:induction false} AddMissingUnique(rows: seq<TimeSlot>, ws: seq<SlotWant>)
    requires SlotKeysUnique(rows) && DistinctWants(ws)
    ensures SlotKeysUnique(AddMissing(rows, ws, rows))
    decreases |ws|
  {
    if ws != [] {
      var front := ws[..|ws| - 1];
      var w := ws[|ws| - 1];
      assert DistinctWants(front) by {
        forall i, j | 0 <= i < j < |front| ensures WantKey(front[i]) != WantKey(front[j]) {
          assert front[i] == ws[i] && front[j] == ws[j];
        }
      }
      AddMissingUnique(rows, front);
      var r := AddMissing(rows, front, rows);
      if !HasSlot(rows, w) {
        AddMissingKeepsRows(rows, front, rows);
        forall i | 0 <= i < |r| ensures SlotKey(r[i]) != WantKey(w) {
          if i < |rows| {
            assert r[i] == r[..|rows|][i];
          } else {
            AddMissingNewRows(rows, front, rows, i);
            var k :| 0 <= k < |front| && !HasSlot(rows, front[k]) && r[i] == NewSlot(i + 1, front[k]);
            assert front[k] == ws[k];
          }
        }
        var r2 := r + [NewSlot(|r| + 1, w)];
        forall i, j | 0 <= i < j < |r2| ensures SlotKey(r2[i]) != SlotKey(r2[j]) {
          if j == |r| {
            assert r2[i] == r[i];
          } else {
            assert r2[i] == r[i] && r2[j] == r[j];
          }
        }
      }
    }
  }

  // ---------------------------------------------------------------------
  // What the wants are

  /** A want of salon s on the given date: its chair exists and its end is one slot after its start. */
  predicate WantOf(s: Salon, date: Day, w: SlotWant) {
    w.salonId == s.id && w.date == date && w.endTime == w.startTime + StepOf(s) && 1 <= w.chairNo <= s.chairCount
  }

  lemma {:induction false} ChairWantsMembers(s: Salon, date: Day, t: int, n: int, w: SlotWant)
    ensures w in ChairWants(s, date, t, n) <==>
      w.salonId == s.id && w.date == date && w.startTime == t && w.endTime == t + StepOf(s) && 1 <= w.chairNo <= n
    decreases n
  {
    if n > 0 {
      ChairWantsMembers(s, date, t, n - 1, w);
    }
  }

  lemma {:induction false} RangeWantsMembers(s: Salon, date: Day, times: seq<int>, w: SlotWant)
    ensures w in RangeWants(s, date, times) <==> WantOf(s, date, w) && w.startTime in times
    decreases |times|
  {
    if times != [] {
      var front := times[..|times| - 1];
      var t := times[|times| - 1];
      assert times == front + [t];
      RangeWantsMembers(s, date, front, w);
      ChairWantsMembers(s, date, t, s.chairCount, w);
    }
  }

  lemma DayWantsMembers(s: Salon, date: Day, w: SlotWant)
    requires s.slotMinutes > 0
    ensures w in DayWants(s, date) <==> WantOf(s, date, w) && w.startTime in DayTimes(s)
  {
    RangeWantsMembers(s, date, MorningTimes(s), w);
    RangeWantsMembers(s, date, AfternoonTimes(s), w);
  }

  /** A want of salon s for the week from monday. */
  predicate WeekWantOf(s: Salon, monday: Day, days: int, w: SlotWant)
    requires s.slotMinutes > 0
  {
    monday <= w.date < monday + days && WantOf(s, w.date, w) && w.startTime in DayTimes(s)
  }

  lemma {:induction false} SalonWantsMembers(s: Salon, monday: Day, days: nat, w: SlotWant)
    requires s.slotMinutes > 0
    ensures w in SalonWants(s, monday, days) <==> WeekWantOf(s, monday, days, w)
    decreases days
  {
    if days > 0 {
      SalonWantsMembers(s, monday, days - 1, w);
      DayWantsMembers(s, monday + days - 1, w);
    }
  }

  /** The run's wants are exactly: for a listed salon, a date of the week, a
      start time of its two ranges and a chair. */
  lemma WeekWantsMembers(salons: seq<Salon>, monday: Day, w: SlotWant)
    requires PositiveSteps(salons)
    ensures w in WeekWants(salons, monday) <==>
      exists i :: 0 <= i < |salons| && WeekWantOf(salons[i], monday, DaysPerWeek, w)
  {
    if w in WeekWants(salons, monday) {
      WeekWantsSound(salons, monday, w);
    }
    if i :| 0 <= i < |salons| && WeekWantOf(salons[i], monday, DaysPerWeek, w) {
      WeekWantsComplete(salons, monday, w, i);
    }
  }

  lemma {:induction false} WeekWantsSound(salons: seq<Salon>, monday: Day, w: SlotWant)
    requires PositiveSteps(salons) && w in WeekWants(salons, monday)
    ensures exists i :: 0 <= i < |salons| && WeekWantOf(salons[i], monday, DaysPerWeek, w)
    decreases |salons|
  {
    var m := |salons| - 1;
    var front := salons[..m];
    assert PositiveSteps(front);
    assert WeekWants(salons, monday) == WeekWants(front, monday) + SalonWants(salons[m], monday, DaysPerWeek);
    if w in WeekWants(front, monday) {
      WeekWantsSound(front, monday, w);
      var i :| 0 <= i < |front| && WeekWantOf(front[i], monday, DaysPerWeek, w);
      assert front[i] == salons[i];
    } else {
      SalonWantsMembers(salons[m], monday, DaysPerWeek, w);
    }
  }

  lemma WeekWantsComplete(salons: seq<Salon>, monday: Day, w: SlotWant, i: nat)
    requires PositiveSteps(salons) && i < |salons| && WeekWantOf(salons[i], monday, DaysPerWeek, w)
    ensures w in WeekWants(salons, monday)
  {
    SalonWantsMembers(salons[i], monday, DaysPerWeek, w);
    WeekWantsIncludes(salons, monday, w, i, |salons|);
    assert salons[..|salons|] == salons;
  }

  /** Each salon's wants sit inside those of every prefix that lists it. */
  lemma {:induction false} WeekWantsIncludes(salons: seq<Salon>, monday: Day, w: SlotWant, i: nat, j: nat)
    requires PositiveSteps(salons) && i < j <= |salons| && w in SalonWants(salons[i], monday, DaysPerWeek)
    ensures PositiveSteps(salons[..j]) && w in WeekWants(salons[..j], monday)
    decreases j
  {
    WeekWantsSnoc(salons, monday, j - 1);
    if i < j - 1 {
      WeekWantsIncludes(salons, monday, w, i, j - 1);
    }
  }

  /** With 30-minute slots the day's start times are the grid the booking pages use. */
  lemma ThirtyMinuteSalonsFollowTheGrid(s: Salon)
    requires s.slotMinutes == 30
    ensures DayTimes(s) == DailySlots()
  {
    assert StepOf(s) == SlotStep;
    DailySlotsAreTheTwoRanges();
  }

  // ---------------------------------------------------------------------
  // The wants have distinct tuples

  lemma {:induction false} ConcatDistinct(a: seq<SlotWant>, b: seq<SlotWant>)
    requires DistinctWants(a) && DistinctWants(b)
    requires forall x, y :: x in a && y in b ==> WantKey(x) != WantKey(y)
    ensures DistinctWants(a + b)
  {
    var ab := a + b;
    forall i, j | 0 <= i < j < |ab| ensures WantKey(ab[i]) != WantKey(ab[j]) {
      if j < |a| {
        assert ab[i] == a[i] && ab[j] == a[j];
      } else if i >= |a| {
        assert ab[i] == b[i - |a|] && ab[j] == b[j - |a|];
      } else {
        assert ab[i] in a && ab[j] in b;
      }
    }
  }

  lemma {:induction false} ChairWantsDistinct(s: Salon, date: Day, t: int, n: int)
    ensures DistinctWants(ChairWants(s, date, t, n))
    decreases n
  {
    if n > 0 {
      var front := ChairWants(s, date, t, n - 1);
      var w := SlotWant(s.id, n, date, t, t + StepOf(s));
      ChairWantsDistinct(s, date, t, n - 1);
      forall x | x in front ensures x.chairNo < n {
        ChairWantsMembers(s, date, t, n - 1, x);
      }
      ConcatDistinct(front, [w]);
    }
  }

  predicate StrictlyIncreasing(times: seq<int>) {
    forall i, j :: 0 <= i < j < |times| ==> times[i] < times[j]
  }

  lemma {:induction false} RangeWantsDistinct(s: Salon, date: Day, times: seq<int>)
    requires StrictlyIncreasing(times)
    ensures DistinctWants(RangeWants(s, date, times))
    decreases |times|
  {
    if times != [] {
      var front := times[..|times| - 1];
      var t := times[|times| - 1];
      RangeWantsDistinct(s, date, front);
      ChairWantsDistinct(s, date, t, s.chairCount);
      forall x, y | x in RangeWants(s, date, front) && y in ChairWants(s, date, t, s.chairCount)
        ensures WantKey(x) != WantKey(y)
      {
        RangeWantsMembers(s, date, front, x);
        ChairWantsMembers(s, date, t, s.chairCount, y);
        var k :| 0 <= k < |front| && front[k] == x.startTime;
        assert front[k] == times[k];
      }
      ConcatDistinct(RangeWants(s, date, front), ChairWants(s, date, t, s.chairCount));
    }
  }

  lemma StepRangeStrict(start: int, end: int, step: int)
    requires step > 0
    ensures StrictlyIncreasing(StepRange(start, end, step))
    ensures forall t :: t in StepRange(start, end, step) ==> start <= t < end
  {
    var r := StepRange(start, end, step);
    forall i, j | 0 <= i < j < |r| ensures r[i] < r[j] {
      StepRangeIncreasing(start, end, step, i, j);
    }
    forall t | t in r ensures start <= t < end {
      var i :| 0 <= i < |r| && r[i] == t;
      StepRangeAt(start, end, step, i);
    }
  }

  lemma DayWantsDistinct(s: Salon, date: Day)
    requires s.slotMinutes > 0
    ensures DistinctWants(DayWants(s, date))
  {
    var step := StepOf(s);
    StepRangeStrict(MorningStart, MorningEnd, step);
    StepRangeStrict(AfternoonStart, AfternoonEnd, step);
    RangeWantsDistinct(s, date, MorningTimes(s));
    RangeWantsDistinct(s, date, AfternoonTimes(s));
    forall x, y | x in RangeWants(s, date, MorningTimes(s)) && y in RangeWants(s, date, AfternoonTimes(s))
      ensures WantKey(x) != WantKey(y)
    {
      RangeWantsMembers(s, date, MorningTimes(s), x);
      RangeWantsMembers(s, date, AfternoonTimes(s), y);
    }
    ConcatDistinct(RangeWants(s, date, MorningTimes(s)), RangeWants(s, date, AfternoonTimes(s)));
  }

  lemma {:induction false} SalonWantsDistinct(s: Salon, monday: Day, days: nat)
    requires s.slotMinutes > 0
    ensures DistinctWants(SalonWants(s, monday, days))
    decreases days
  {
    if days > 0 {
      SalonWantsDistinct(s, monday, days - 1);
      DayWantsDistinct(s, monday + days - 1);
      forall x, y | x in SalonWants(s, monday, days - 1) && y in DayWants(s, monday + days - 1)
        ensures WantKey(x) != WantKey(y)
      {
        SalonWantsMembers(s, monday, days - 1, x);
        DayWantsMembers(s, monday + days - 1, y);
      }
      ConcatDistinct(SalonWants(s, monday, days - 1), DayWants(s, monday + days - 1));
    }
  }

  /** Salons with distinct ids want distinct tuples. */
  lemma {:induction false} WeekWantsDistinct(salons: seq<Salon>, monday: Day)
    requires PositiveSteps(salons)
    requires forall i, j :: 0 <= i < j < |salons| ==> salons[i].id != salons[j].id
    ensures DistinctWants(WeekWants(salons, monday))
    decreases |salons|
  {
    if salons != [] {
      var front := salons[..|salons| - 1];
      var last := salons[|salons| - 1];
      WeekWantsDistinct(front, monday);
      SalonWantsDistinct(last, monday, DaysPerWeek);
      forall x, y | x in WeekWants(front, monday) && y in SalonWants(last, monday, DaysPerWeek)
        ensures WantKey(x) != WantKey(y)
      {
        WeekWantsMembers(front, monday, x);
        SalonWantsMembers(last, monday, DaysPerWeek, y);
        var i :| 0 <= i < |front| && WeekWantOf(front[i], monday, DaysPerWeek, x);
        assert front[i] == salons[i];
      }
      ConcatDistinct(WeekWants(front, monday), SalonWants(last, monday, DaysPerWeek));
    }
  }

  // ---------------------------------------------------------------------
  // What a run promises

  /** A second run at the same instant changes nothing: either the Monday
      check stops it, or every tuple it wants is already there. */
  lemma {:induction false} GenerateRunIdempotent(rows: seq<TimeSlot>, salons: seq<Salon>, now: Instant)
    requires PositiveSteps(ActiveSalons(salons))
    ensures GenerateRun(GenerateRun(rows, salons, now), salons, now) == GenerateRun(rows, salons, now)
  {
    if ShouldRun(now) {
      var monday := NextMonday(DateOf(now));
      var ws := WeekWants(ActiveSalons(salons), monday);
      var r1 := GenerateRun(rows, salons, now);
      if r1 != rows {
        assert r1 == AddMissing(rows, ws, rows);
        AddMissingKeepsRows(rows, ws, rows);
        forall k | 0 <= k < |ws| ensures HasSlot(r1, ws[k]) {
          AddMissingCovers(rows, ws, rows, ws[k]);
          if HasSlot(rows, ws[k]) {
            var i :| 0 <= i < |rows| && SlotKey(rows[i]) == WantKey(ws[k]);
            assert r1[i] == r1[..|rows|][i];
          }
        }
        AddMissingNothingNew(r1, ws, r1);
      }
    }
  }

  /** Whether the Monday check lets a run through. */
  predicate MondayFree(rows: seq<TimeSlot>, monday: Day) {
    !Linq.Any(rows, (x: TimeSlot) => x.slotDate == monday)
  }

  /** Checked against the table itself, every want ends up held. */
  lemma AddMissingCoversSelf(rows: seq<TimeSlot>, ws: seq<SlotWant>, w: SlotWant)
    requires w in ws
    ensures HasSlot(AddMissing(rows, ws, rows), w)
  {
    AddMissingCovers(rows, ws, rows, w);
    if HasSlot(rows, w) {
      var j :| 0 <= j < |rows| && SlotKey(rows[j]) == WantKey(w);
      AddMissingKeepsRows(rows, ws, rows);
      assert AddMissing(rows, ws, rows)[j] == AddMissing(rows, ws, rows)[..|rows|][j];
    }
  }

  /** Salon s is an active salon of the table, d a day of the week (0 is
      Monday), t a start time of its ranges and c one of its chairs. */
  predicate SlotOfWeek(salons: seq<Salon>, s: Salon, d: int, t: int, c: int) {
    s in salons && s.isActive && s.slotMinutes > 0 &&
    0 <= d < 7 && t in DayTimes(s) && 1 <= c <= s.chairCount
  }

  /** After a run that generates, every active salon has a row for each day of
      the week, each start time of its two ranges and each chair. */
  lemma GenerateRunCovers(rows: seq<TimeSlot>, salons: seq<Salon>, now: Instant,
                          s: Salon, d: int, t: int, c: int)
    requires PositiveSteps(ActiveSalons(salons))
    requires ShouldRun(now) && MondayFree(rows, NextMonday(DateOf(now)))
    requires SlotOfWeek(salons, s, d, t, c)
    ensures HasSlot(GenerateRun(rows, salons, now),
                    SlotWant(s.id, c, NextMonday(DateOf(now)) + d, t, t + StepOf(s)))
  {
    WeekCovers(rows, salons, NextMonday(DateOf(now)), s, d, t, c);
    GenerateRunDue(rows, salons, now);
  }

  lemma WeekCovers(rows: seq<TimeSlot>, salons: seq<Salon>, monday: Day, s: Salon, d: int, t: int, c: int)
    requires PositiveSteps(ActiveSalons(salons)) && SlotOfWeek(salons, s, d, t, c)
    ensures HasSlot(AddMissing(rows, WeekWants(ActiveSalons(salons), monday), rows),
                    SlotWant(s.id, c, monday + d, t, t + StepOf(s)))
  {
    var w := SlotWant(s.id, c, monday + d, t, t + StepOf(s));
    var act := ActiveSalons(salons);
    assert s in act;
    var i :| 0 <= i < |act| && act[i] == s;
    assert WeekWantOf(act[i], monday, DaysPerWeek, w);
    WeekWantsMembers(act, monday, w);
    AddMissingCoversSelf(rows, WeekWants(act, monday), w);
  }

  /** A run keeps every existing row as it was and only appends. */
  lemma GenerateRunKeepsRows(rows: seq<TimeSlot>, salons: seq<Salon>, now: Instant)
    requires PositiveSteps(ActiveSalons(salons))
    ensures |GenerateRun(rows, salons, now)| >= |rows|
    ensures GenerateRun(rows, salons, now)[..|rows|] == rows
    ensures !ShouldRun(now) || !MondayFree(rows, NextMonday(DateOf(now))) ==> GenerateRun(rows, salons, now) == rows
  {
    if ShouldRun(now) && MondayFree(rows, NextMonday(DateOf(now))) {
      AddMissingKeepsRows(rows, WeekWants(ActiveSalons(salons), NextMonday(DateOf(now))), rows);
    }
  }

  /** Row x is for salon s's chair, dated in the week from monday, at a start
      time of its ranges, and one slot long. */
  predicate NewRowOf(s: Salon, monday: Day, x: TimeSlot)
    requires s.slotMinutes > 0
  {
    x.salonId == s.id && 1 <= x.koltukId <= s.chairCount && monday <= x.slotDate < monday + 7 &&
    x.startTime in DayTimes(s) && x.endTime == x.startTime + s.slotMinutes * 60
  }

  /** A free, unowned row numbered by its position i, whose tuple no row of rows holds. */
  predicate FreshFreeRow(rows: seq<TimeSlot>, i: int, x: TimeSlot) {
    x.status == Bos && x.kullanici == None && x.id == i + 1 &&
    forall j :: 0 <= j < |rows| ==> SlotKey(rows[j]) != SlotKey(x)
  }

  lemma {:induction false} WeekRowsAreNew(rows: seq<TimeSlot>, act: seq<Salon>, monday: Day, i: nat)
    requires PositiveSteps(act)
    requires |rows| <= i < |AddMissing(rows, WeekWants(act, monday), rows)|
    ensures FreshFreeRow(rows, i, AddMissing(rows, WeekWants(act, monday), rows)[i])
    ensures exists a :: 0 <= a < |act| && NewRowOf(act[a], monday, AddMissing(rows, WeekWants(act, monday), rows)[i])
  {
    var ws := WeekWants(act, monday);
    var r := AddMissing(rows, ws, rows);
    AddMissingNewRows(rows, ws, rows, i);
    var k :| 0 <= k < |ws| && !HasSlot(rows, ws[k]) && r[i] == NewSlot(i + 1, ws[k]);
    WeekWantsMembers(act, monday, ws[k]);
    var a :| 0 <= a < |act| && WeekWantOf(act[a], monday, DaysPerWeek, ws[k]);
    assert NewRowOf(act[a], monday, r[i]);
  }

  /** Every appended row is free, unowned, numbered by its position, one slot
      long, dated in the coming week, and for an active salon's chair and a
      start time of its ranges; no earlier row holds its tuple. */
  lemma GenerateRunNewRows(rows: seq<TimeSlot>, salons: seq<Salon>, now: Instant, i: nat)
    requires PositiveSteps(ActiveSalons(salons))
    requires |rows| <= i < |GenerateRun(rows, salons, now)|
    ensures FreshFreeRow(rows, i, GenerateRun(rows, salons, now)[i])
    ensures exists s :: s in salons && s.isActive && s.slotMinutes > 0 &&
                        NewRowOf(s, NextMonday(DateOf(now)), GenerateRun(rows, salons, now)[i])
  {
    var act := ActiveSalons(salons);
    GenerateRunKeepsRows(rows, salons, now);
    GenerateRunDue(rows, salons, now);
    WeekRowsAreNew(rows, act, NextMonday(DateOf(now)), i);
    var a :| 0 <= a < |act| && NewRowOf(act[a], NextMonday(DateOf(now)), GenerateRun(rows, salons, now)[i]);
    assert act[a] in act;
  }

  /** A run whose salons have distinct ids, over a table without duplicate
      tuples, leaves a table without duplicate tuples. */
  lemma GenerateRunNoDuplicates(rows: seq<TimeSlot>, salons: seq<Salon>, now: Instant)
    requires PositiveSteps(ActiveSalons(salons))
    requires SalonIds(salons) && SlotKeysUnique(rows)
    ensures SlotKeysUnique(GenerateRun(rows, salons, now))
  {
    var act := ActiveSalons(salons);
    assert forall p, q :: 0 <= p < q < |salons| ==> salons[p] != salons[q] by {
      forall p, q | 0 <= p < q < |salons| ensures salons[p] != salons[q] {
        assert salons[p].id != salons[q].id;
      }
    }
    ActiveSalonsDistinct(salons);
    forall i, j | 0 <= i < j < |act| ensures act[i].id != act[j].id {
      assert act[i] in salons && act[j] in salons;
      var a :| 0 <= a < |salons| && salons[a] == act[i];
      var b :| 0 <= b < |salons| && salons[b] == act[j];
      assert act[i] != act[j];
      assert a != b;
      assert salons[a].id == a + 1 && salons[b].id == b + 1;
    }
    if ShouldRun(now) && MondayFree(rows, NextMonday(DateOf(now))) {
      WeekWantsDistinct(act, NextMonday(DateOf(now)));
      AddMissingUnique(rows, WeekWants(act, NextMonday(DateOf(now))));
    }
  }
}
