/** The application's database: one table per entity, held in memory. Row
    ids are identity columns and are modelled as 1-based positions. The
    unique index on Appointment (SalonId, Date, StartTime, ChairNo) covers
    every row, cancelled ones included. */
module Data {
  import opened Wrappers
  import opened Calendar
  import opened Entities
  import Linq

  predicate SalonIds(s: seq<Salon>) { forall i :: 0 <= i < |s| ==> s[i].id == i + 1 }
  predicate AppointmentIds(s: seq<Appointment>) { forall i :: 0 <= i < |s| ==> s[i].id == i + 1 }
  predicate ManualBlockIds(s: seq<ManualBlock>) { forall i :: 0 <= i < |s| ==> s[i].id == i + 1 }
  predicate RecurringBlockIds(s: seq<RecurringBlock>) { forall i :: 0 <= i < |s| ==> s[i].id == i + 1 }
  predicate TimeSlotIds(s: seq<TimeSlot>) { forall i :: 0 <= i < |s| ==> s[i].id == i + 1 }

  /** No two appointment rows share (SalonId, Date, StartTime, ChairNo). */
  predicate UniqueBookingKeys(s: seq<Appointment>) {
    forall i, j :: 0 <= i < j < |s| ==> KeyOf(s[i]) != KeyOf(s[j])
  }

  /** Whether some row already holds the key: what makes the unique index refuse an insert. */
  function HasBookingKey(s: seq<Appointment>, k: BookingKey): (r: bool)
    ensures r <==> exists i :: 0 <= i < |s| && KeyOf(s[i]) == k
  {
    Linq.Any(s, (a: Appointment) => KeyOf(a) == k)
  }

  /** Two stored rows with the same key are the same row. */
  lemma {:induction false} SameKeySameRow(s: seq<Appointment>, a: Appointment, b: Appointment)
    requires UniqueBookingKeys(s)
    requires a in s && b in s && KeyOf(a) == KeyOf(b)
    ensures a == b
  {
    var i :| 0 <= i < |s| && s[i] == a;
    var j :| 0 <= j < |s| && s[j] == b;
    assert KeyOf(s[i]) == KeyOf(s[j]);
    assert i == j;
  }

  /** How the appointment table may change in one request: rows are only
      appended, and an existing row may only be switched off. */
  predicate LedgerStep(before: seq<Appointment>, after: seq<Appointment>) {
    |before| <= |after| &&
    forall i :: 0 <= i < |before| ==> after[i] == before[i] || after[i] == before[i].(isActive := false)
  }

  lemma {:induction false} LedgerStepTransitive(a: seq<Appointment>, b: seq<Appointment>, c: seq<Appointment>)
    requires LedgerStep(a, b) && LedgerStep(b, c)
    ensures LedgerStep(a, c)
  {
    forall i | 0 <= i < |a|
      ensures c[i] == a[i] || c[i] == a[i].(isActive := false)
    {
      assert b[i] == a[i] || b[i] == a[i].(isActive := false);
      assert c[i] == b[i] || c[i] == b[i].(isActive := false);
    }
  }

  /** Because the index also counts cancelled rows, a tuple whose appointment
      was cancelled is never held by an active appointment again. */
  lemma {:induction false} CancelledTupleNeverRebooked(before: seq<Appointment>, after: seq<Appointment>, i: nat)
    requires LedgerStep(before, after) && UniqueBookingKeys(after)
    requires i < |before| && !before[i].isActive
    ensures forall j :: 0 <= j < |after| && after[j].isActive ==> KeyOf(after[j]) != KeyOf(before[i])
  {
    assert KeyOf(after[i]) == KeyOf(before[i]) && !after[i].isActive;
    forall j | 0 <= j < |after| && after[j].isActive
      ensures KeyOf(after[j]) != KeyOf(before[i])
    {
      assert j != i;
      if j < i {
        assert KeyOf(after[j]) != KeyOf(after[i]);
      } else {
        assert KeyOf(after[i]) != KeyOf(after[j]);
      }
    }
  }

  class AppDb {
    var salons: seq<Salon>
    var appointments: seq<Appointment>
    var manualBlocks: seq<ManualBlock>
    var recurringBlocks: seq<RecurringBlock>
    var timeSlots: seq<TimeSlot>
    var staffs: seq<Staff>

    ghost predicate Valid()
      reads this
    {
      SalonIds(salons) && AppointmentIds(appointments) && UniqueBookingKeys(appointments) &&
      ManualBlockIds(manualBlocks) && RecurringBlockIds(recurringBlocks) && TimeSlotIds(timeSlots)
    }

    /** A database with the given staff table and every other table empty. */
    constructor (staffs: seq<Staff>)
      ensures Valid() && this.staffs == staffs
      ensures salons == [] && appointments == [] && manualBlocks == [] && recurringBlocks == [] && timeSlots == []
    {
      this.staffs := staffs;
      salons, appointments, manualBlocks, recurringBlocks, timeSlots := [], [], [], [], [];
    }

    /** Add + SaveChanges under the unique index: the insert happens exactly
        when no stored row holds the new row's key. */
    method TryAddAppointment(a: Appointment) returns (ok: bool)
      requires Valid() && a.id == |appointments| + 1
      modifies this`appointments
      ensures Valid()
      ensures ok <==> !HasBookingKey(old(appointments), KeyOf(a))
      ensures appointments == if ok then old(appointments) + [a] else old(appointments)
    {
      ok := !HasBookingKey(appointments, KeyOf(a));
      if ok {
        appointments := appointments + [a];
      }
    }

    /** appt.IsActive = false on one row. */
    method DeactivateAppointment(i: nat)
      requires Valid() && i < |appointments|
      modifies this`appointments
      ensures Valid()
      ensures appointments == old(appointments)[i := old(appointments)[i].(isActive := false)]
    {
      appointments := appointments[i := appointments[i].(isActive := false)];
    }

    method AddSalon(s: Salon)
      requires Valid() && s.id == |salons| + 1
      modifies this`salons
      ensures Valid() && salons == old(salons) + [s]
    {
      salons := salons + [s];
    }

    /** Overwrites one salon row in place; its id stays. */
    method SetSalon(i: nat, s: Salon)
      requires Valid() && i < |salons| && s.id == salons[i].id
      modifies this`salons
      ensures Valid() && salons == old(salons)[i := s]
    {
      salons := salons[i := s];
    }

    method AddManualBlock(b: ManualBlock)
      requires Valid() && b.id == |manualBlocks| + 1
      modifies this`manualBlocks
      ensures Valid() && manualBlocks == old(manualBlocks) + [b]
    {
      manualBlocks := manualBlocks + [b];
    }

    method DeactivateManualBlock(i: nat)
      requires Valid() && i < |manualBlocks|
      modifies this`manualBlocks
      ensures Valid()
      ensures manualBlocks == old(manualBlocks)[i := old(manualBlocks)[i].(isActive := false)]
    {
      manualBlocks := manualBlocks[i := manualBlocks[i].(isActive := false)];
    }

    method AddRecurringBlock(r: RecurringBlock)
      requires Valid() && r.id == |recurringBlocks| + 1
      modifies this`recurringBlocks
      ensures Valid() && recurringBlocks == old(recurringBlocks) + [r]
    {
      recurringBlocks := recurringBlocks + [r];
    }

    method DeactivateRecurringBlock(i: nat)
      requires Valid() && i < |recurringBlocks|
      modifies this`recurringBlocks
      ensures Valid()
      ensures recurringBlocks == old(recurringBlocks)[i := old(recurringBlocks)[i].(isActive := false)]
    {
      recurringBlocks := recurringBlocks[i := recurringBlocks[i].(isActive := false)];
    }

    /** Only the TimeSlots table's own id invariant is involved. */
    method AddTimeSlot(t: TimeSlot)
      requires TimeSlotIds(timeSlots) && t.id == |timeSlots| + 1
      modifies this`timeSlots
      ensures TimeSlotIds(timeSlots) && timeSlots == old(timeSlots) + [t]
    {
      timeSlots := timeSlots + [t];
    }
  }
}
