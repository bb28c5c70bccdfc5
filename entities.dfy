/** The rows of the salon database: one datatype per entity table.
    Creation timestamps and the appointment's row-version token are left out. */
module Entities {
  import opened Wrappers
  import opened Calendar

  /** A salon whose chairs, numbered 1..chairCount, are booked. */
  datatype Salon = Salon(
    id: int,
    name: string,
    isActive: bool,
    chairCount: int,
    slotMinutes: int)

  /** A booking of one chair of one salon at one start time of one day. */
  datatype Appointment = Appointment(
    id: int,
    salonId: int,
    chairNo: int,
    date: Day,
    startTime: TimeOfDay,
    userName: string,
    displayName: string,
    isActive: bool)

  /** One-off closure on one date over [startTime, endTime); no chair means every chair. */
  datatype ManualBlock = ManualBlock(
    id: int,
    salonId: int,
    date: Day,
    startTime: TimeOfDay,
    endTime: TimeOfDay,
    chairNo: Option<int>,
    reason: string,
    createdBy: string,
    isActive: bool)

  /** A stored type code that names neither Daily (1) nor Weekly (2). */
  type OtherCode = c: int | c != 1 && c != 2

  /** RecurringBlockType: an enum over int, so any code can be stored in it. */
  datatype RecurringBlockType = Daily | Weekly | Undefined(code: OtherCode)

  function BlockTypeFromCode(code: int): (k: RecurringBlockType)
    ensures k == Daily <==> code == 1
    ensures k == Weekly <==> code == 2
    ensures k.Undefined? ==> k.code == code
  {
    if code == 1 then Daily else if code == 2 then Weekly else Undefined(code)
  }

  /** Standing closure over [startTime, endTime): every day, or on ISO weekday
      dayOfWeekIso (1 = Monday .. 7 = Sunday) for Weekly blocks. */
  datatype RecurringBlock = RecurringBlock(
    id: int,
    salonId: int,
    kind: RecurringBlockType,
    dayOfWeekIso: Option<int>,
    startTime: TimeOfDay,
    endTime: TimeOfDay,
    chairNo: Option<int>,
    reason: string,
    createdBy: string,
    isActive: bool)

  /** SlotStatus is not part of this model beyond its value Bos (free). */
  datatype SlotStatus = Bos | OtherStatus(code: int)

  /** A pre-materialised slot row; start and end are TimeSpan values in seconds. */
  datatype TimeSlot = TimeSlot(
    id: int,
    salonId: int,
    koltukId: int,
    slotDate: Day,
    startTime: int,
    endTime: int,
    status: SlotStatus,
    kullanici: Option<string>)

  /** A staff member: kullanici is the account name, salonId 0 means every salon,
      yetki 1 means administrator, aktif is the active flag. */
  datatype Staff = Staff(
    id: int,
    kullanici: string,
    salonId: int,
    yetki: int,
    aktif: bool)

  /** The columns of the unique index on Appointment: salon, date, start time, chair. */
  datatype BookingKey = BookingKey(salonId: int, date: Day, startTime: TimeOfDay, chairNo: int)

  function KeyOf(a: Appointment): BookingKey {
    BookingKey(a.salonId, a.date, a.startTime, a.chairNo)
  }
}
