# Randevu booking engine, modelled in Dafny

Randevu books barber and hairdresser chairs in company salons. A user books
one chair of one salon at one start time of the coming Monday..Sunday week.
Booking for that week opens on the Friday before at 08:00. Until 08:30 only
engineers may book; the window closes on the week's Thursday at 17:00.

The booking rules are:

- the day has two half-open ranges of 30-minute slots, 08:30-12:00 and 13:30-17:00;
- a user needs 14 days between their latest active appointment and the new date;
- one-off (manual) blocks and Daily/Weekly recurring blocks close cells;
- an appointment of the week in force may be cancelled until the window
  closes, and any other appointment until two hours before it starts.

Administrators have an active staff row with Yetki = 1. A staff SalonId of 0
means every salon. Administrators manage salons and blocks and run a report.
A background job fills the TimeSlots table for the coming week every Friday
from 08:00.

The project models these pieces of the repository:

- the booking window;
- the slot rules;
- the block test;
- the eligibility gate;
- the cancellation rule;
- the booking controller's Book, Cancel and GetWeek;
- the administration actions;
- the weekly slot generator.

Files and modules:

- `foundation.dfy`:
  - `Wrappers`: Option.
  - `Linq`: Any, Where, Select, SelectMany and FirstOrDefault over tables, in table order.
  - `Calendar`: dates as `DateOnly.DayNumber`, where day 0 is a Monday, so
    `DayOfWeek(d) = (d + 1) % 7`. Times of day are seconds since midnight;
    local instants are `day * 86400 + seconds`.
  - `Text`: `char.IsWhiteSpace`, `string.IsNullOrWhiteSpace` and `Trim`.
- `entities.dfy` (`Entities`): one datatype per table row, and the columns
  of the appointment unique index.
- `data.dfy` (`Data`): the database as a class `AppDb`, one `seq` field per
  table.
  - Ids are identity columns, modelled as 1-based positions.
  - `Valid()` includes the unique index on Appointment (SalonId, Date,
    StartTime, ChairNo).
  - The index covers every row, cancelled ones included.
  - Its methods are the Add, in-place update and SaveChanges steps the
    controllers perform.
- `booking_window.dfy`, `slot_rules.dfy`, `block_service.dfy`,
  `eligibility.dfy`, `cancel_policy.dfy`: the services, as functions with
  lemmas.
  - `SlotRules.EnumerateDailySlots` keeps the source's two loops as a method.
- `booking_controller.dfy` (`BookingController`):
  - Book's ten checks are a function `Validate` in source order.
  - `Book` and `Cancel` are methods on `AppDb`.
  - GetWeek keeps its three nested loops (`BuildSlots`, `DaySlots`,
    `ChairSlots`), each proved equal to a grid function.
- `admin_controller.dfy` (`AdminController`):
  - each action's decisions are a function (`PlanSalonSave`, `PlanManualBlock`, ...);
  - a method on `AppDb` carries each decision out.
- `weekly_slot_generator.dfy` (`WeeklySlotGenerator`):
  - the generator's loops are methods;
  - they are proved equal to `GenerateRun`, a function of the table, the
    salons and the clock;
  - lemmas state what a run promises.

The model uses seconds, not minutes, because two places in the source act at
second granularity:

- `IsValidSlot` looks only at the hour range and the minute, so 08:30:15 passes.
- `CancelPolicy` rebuilds the start time from hour and minute, dropping the seconds.

Two behaviours of the source are worth knowing. The model captures both as
written:

- The appointment unique index has no IsActive filter (Randevu/Data/AppDbContext.cs:28-30).
  - Once an appointment is cancelled, no one can book that salon, date, time
    and chair again.
  - Book answers "just filled" instead (`Data.CancelledTupleNeverRebooked`).
  - So the table holds at most one row per tuple, active or cancelled.
- The generator's existence check queries the database, and SaveChanges runs
  only once, after all the loops.
  - So every check sees the table as it was when the run started, not the
    rows added earlier in the same run.
  - The model passes that saved table to every check.
  - TimeSlot has no unique index.

## Model

| member | source | states |
|---|---|---|
| BookingWindowService.EffectiveOpenFriday | Randevu/Services/BookingWindowService.cs:44-56 | The result is a Friday. `now` lies in [that Friday 08:00, the next Friday 08:00). The result is 7 days before today on a Friday before 08:00, and 0..6 days before today otherwise. |
| BookingWindowService.OpenFridayUnique | Randevu/Services/BookingWindowService.cs:44-56 | Any Friday g with `now` in [g 08:00, g+7 08:00) is the effective open Friday, so the anchor is unique. |
| BookingWindowService.GetCurrentWeek | Randevu/Services/BookingWindowService.cs:26-41 | Monday is the open Friday + 3 and is a Monday. Sunday is Monday + 6. The window opens at the open Friday 08:00 and closes on Monday + 3 (a Thursday) at 17:00. `now` is within 7 days after the opening. |
| BookingWindowService.IsWindowOpen | Randevu/Services/BookingWindowService.cs:58-62 | The window is open at every instant except from Thursday 17:00 up to Friday 08:00. |
| BookingWindowService.CanUserBookNow | Randevu/Services/BookingWindowService.cs:64-78 | False whenever the window is closed. For engineers it equals `IsWindowOpen`. For others it is IsWindowOpen and not (a Friday with 08:00 ≤ time < 08:30). |
| BookingWindowService.WindowSpanByWeekday | Randevu/Services/BookingWindowService.cs:26-41 | The span from the week's opening (Friday 08:00) to its close (Thursday 17:00) is every instant except Thursday 17:00 up to Friday 08:00. |
| BookingWindowService.FridayMorningRollsBack | Randevu/Services/BookingWindowService.cs:52-53 | On a Friday before 08:00, the week is the one in force on the preceding Thursday, at any time of that day. |
| BookingWindowService.FridayMorningWeekBefore | Randevu/Services/BookingWindowService.cs:52-53 | On a Friday before 08:00, the instant 7 days earlier has an open Friday one week earlier still, so its week differs. |
| BookingWindowService.NextWeekFollows | Randevu/Services/BookingWindowService.cs:26-56 | The week in force at the next Friday 08:00 is anchored 7 days later. The window closes before that instant. |
| BookingWindowService.EngineerHalfHour | Randevu/Services/BookingWindowService.cs:69-77 | Inside the window, a non-engineer is refused exactly in the first 30 minutes after the window opens. |
| SlotRules.EnumerateDailySlots | Randevu/Services/SlotRules.cs:24-31 | The two loops yield exactly `DailySlots()`. |
| SlotRules.DailySlotsAreTheTwoRanges | Randevu/Services/SlotRules.cs:24-31 | The enumeration is [08:30, 12:00) stepped by 30 minutes, followed by [13:30, 17:00) stepped by 30 minutes. |
| SlotRules.DailySlotsShape | Randevu/Services/SlotRules.cs:24-31 | 14 strictly increasing times: 08:30..11:30, then 13:30..16:30. |
| SlotRules.DailySlotsValues | Randevu/Services/SlotRules.cs:24-31 | The 14 start times, in seconds since midnight. |
| SlotRules.ValidSlotIffEnumerated | Randevu/Services/SlotRules.cs:15-31 | For a whole-minute time, IsValidSlot holds exactly when the time is enumerated. |
| SlotRules.EnumeratedSlotsAreValid | Randevu/Services/SlotRules.cs:15-31 | Every enumerated time passes IsValidSlot. |
| SlotRules.RangeEndsAreInvalid | Randevu/Services/SlotRules.cs:17-18 | 12:00 and 17:00 are rejected (exclusive ends), and so are 08:00 and 13:00. |
| SlotRules.SecondsAreIgnored | Randevu/Services/SlotRules.cs:21 | 08:30:15 passes the validator but is not an enumerated slot. |
| SlotRules.StepRangeAt | Randevu/Services/SlotRules.cs:26 | The i-th time a `for (t = start; t < end; t += step)` loop visits is start + i·step, and it lies in [start, end). |
| SlotRules.StepRangeIncreasing | Randevu/Services/SlotRules.cs:26 | The visited times strictly increase. |
| BlockService.ToIsoDayOfWeek | Randevu/Services/BlockService.cs:61-66 | Result in 1..7. Sunday (0) becomes 7; Monday..Saturday keep 1..6. |
| BlockService.IsBlocked | Randevu/Services/BlockService.cs:19-45 | True exactly when some manual block is active, of the salon, on the date, with a null or equal chair, and start ≤ t < end; or some recurring block is active, of the salon, with a matching chair and range, and either Daily or Weekly on the date's ISO weekday. |
| BlockService.GetManualBlocksForRange | Randevu/Services/BlockService.cs:47-52 | Exactly the salon's active manual blocks with from ≤ Date ≤ to. |
| BlockService.GetRecurringBlocks | Randevu/Services/BlockService.cs:54-59 | Exactly the salon's active recurring blocks. |
| BlockService.IrrelevantBlocksNeverBlock | Randevu/Services/BlockService.cs:23-24 | Adding an inactive block, or one of another salon, changes no answer. |
| BlockService.ChairBlockLeavesOtherChairs | Randevu/Services/BlockService.cs:26-37 | Adding a block bound to another chair changes no answer. |
| BlockService.AllChairsManualBlock | Randevu/Services/BlockService.cs:26 | An active manual block without a chair closes every chair within its range on its date. |
| BlockService.AllChairsRecurringBlock | Randevu/Services/BlockService.cs:37-41 | An active recurring block without a chair closes every chair within its range on the days it applies to. |
| BlockService.WeeklyBlockOnlyOnItsDay | Randevu/Services/BlockService.cs:39-41 | A Weekly block changes nothing on dates of another ISO weekday. |
| BlockService.UndefinedTypeNeverBlocks | Randevu/Services/BlockService.cs:39-41 | A stored type code other than Daily and Weekly never closes a cell. |
| EligibilityService.LastActiveDate | Randevu/Services/EligibilityService.cs:19-23 | None exactly when the user has no active row. Otherwise the result is the date of one of the user's active rows, and no active row of the user is later. |
| EligibilityService.Check14DayRule | Randevu/Services/EligibilityService.cs:16-32 | ok exactly when there is no reason. ok exactly when every active appointment of the user is at least 14 days before the requested date. A rejection quotes the latest active date. |
| EligibilityService.OthersNeverRestrict | Randevu/Services/EligibilityService.cs:19-23 | Adding a cancelled row, or another user's row, leaves the verdict unchanged. |
| EligibilityService.LastActiveIgnoresOthers | Randevu/Services/EligibilityService.cs:19-23 | Adding such a row leaves the latest active date unchanged. |
| EligibilityService.FourteenDayBoundary | Randevu/Services/EligibilityService.cs:27-29 | last + 14 passes. last + 13 fails, and so does every date up to last. |
| CancelPolicy.StartInstant | Randevu/Services/CancelPolicy.cs:23 | The start is on the appointment's date, at its start time with the seconds dropped. |
| CancelPolicy.CanCancel | Randevu/Services/CancelPolicy.cs:16-25 | For an appointment dated Monday..Sunday (both ends included): exactly now < close of window. For any other: exactly now ≤ start − 2h. |
| CancelPolicy.WhyNot | Randevu/Services/CancelPolicy.cs:27-36 | Takes the active-week branch exactly when CanCancel does. |
| CancelPolicy.WhyNotQuotesTheDeadline | Randevu/Services/CancelPolicy.cs:16-36 | The quoted instant is the one at which CanCancel stops holding. Cancelling is allowed strictly before the close, or up to and including start − 2h. |
| CancelPolicy.WhyNotIgnoresNow | Randevu/Services/CancelPolicy.cs:27-36 | The reason does not depend on the current time. |
| CancelPolicy.CanCancelMonotone | Randevu/Services/CancelPolicy.cs:16-25 | Once cancelling is refused, it stays refused. |
| CancelPolicy.CancelBoundaries | Randevu/Services/CancelPolicy.cs:20-24 | One second before the close passes and the close itself fails. start − 2h passes and one second later fails. |
| CancelPolicy.SecondsDoNotMatter | Randevu/Services/CancelPolicy.cs:23-34 | Start times within the same minute get the same verdict and reason. |
| CancelPolicy.ActiveWeekCancelWhileOpen | Randevu/Services/CancelPolicy.cs:18-21 | Against the week in force, an appointment of that week is cancellable exactly while the window is open. |
| CancelPolicy.LeadTimeRule | Randevu/Services/CancelPolicy.cs:23-24 | Outside the active week, a whole-minute appointment is cancellable exactly when it starts at least two hours after now. |
| BookingController.IsoDow | Randevu/Controllers/BookingController.cs:293-298 | In 1..7, and equal to BlockService's ToIsoDayOfWeek. |
| BookingController.EachDay | Randevu/Controllers/BookingController.cs:287-291 | end − start + 1 dates (none when start > end); the i-th is start + i. |
| BookingController.FindActiveSalon | Randevu/Controllers/BookingController.cs:56-57 | None exactly when no salon has the id and is active. Otherwise an active salon with that id. |
| BookingController.FindActiveSalonById | Randevu/Controllers/BookingController.cs:183-184 | With ids as positions, the lookup finds row id − 1 if it is active, and nothing otherwise. |
| BookingController.Validate | Randevu/Controllers/BookingController.cs:163-200 | Approves exactly when every one of Book's conditions holds, stated directly; the 14-day rule is stated over all of the user's active rows. The approval carries the parsed date and time and the salon found. A TooSoon refusal quotes the latest active date. |
| BookingController.ValidateIsFirstFailingCheck | Randevu/Controllers/BookingController.cs:163-200 | Approval means all ten checks hold. A refusal names a check that fails, and every earlier check holds. |
| BookingController.NewAppointment | Randevu/Controllers/BookingController.cs:205-215 | The new row is active, belongs to the caller and has the request's salon, date, time and chair as its key. |
| BookingController.Book | Randevu/Controllers/BookingController.cs:154-241 | A refused request changes nothing. If any stored row (cancelled ones included) holds the key, the answer is JustFilled and nothing changes. Otherwise exactly one row is appended, with id = count + 1 and the Booked event. The unique index and the ledger rule (append, or switch off) are kept. |
| BookingController.NoSecondBookingWithinFourteenDays | Randevu/Controllers/BookingController.cs:195-196 | Once the user holds an active row, Validate refuses every date fewer than 14 days after it. |
| BookingController.BookSameRequestTwice | Randevu/Controllers/BookingController.cs:154-227 | The same request made twice in a row never books the second time. |
| BookingController.FindActiveAppointment | Randevu/Controllers/BookingController.cs:260-261 | None exactly when no row has the id and is active. Otherwise such a row. |
| BookingController.FindActiveAppointmentById | Randevu/Controllers/BookingController.cs:260-261 | With ids as positions, the lookup finds row id − 1 while it is active. |
| BookingController.CheckCancel | Randevu/Controllers/BookingController.cs:253-268 | Each refusal holds exactly when its own check fails and the earlier ones pass: window, caller, active row with that id, owner, then CanCancel. Approval names the row found. TooLate quotes WhyNot. |
| BookingController.Cancel | Randevu/Controllers/BookingController.cs:247-285 | A refusal changes nothing. Approval switches off exactly the row found, changes nothing else, and returns the Active event for that slot. |
| BookingController.CancelTwiceNotFound | Randevu/Controllers/BookingController.cs:260-261 | After a cancellation, the same id is no longer found. |
| BookingController.WeekAppointments | Randevu/Controllers/BookingController.cs:60-62 | Exactly the salon's active rows dated Monday..Sunday. |
| BookingController.BookingAt | Randevu/Controllers/BookingController.cs:127 | None exactly when no row of the week holds date, time and chair. Otherwise such a row. |
| BookingController.ChairSlots | Randevu/Controllers/BookingController.cs:96-143 | The chair loop produces the cells of chairs 1..n at one day and time. |
| BookingController.DaySlots | Randevu/Controllers/BookingController.cs:94-144 | The time loop produces, for each enumerated slot, its chairs' cells. |
| BookingController.BuildSlots | Randevu/Controllers/BookingController.cs:90-145 | The day loop produces the week's cells, day-major. |
| BookingController.GetWeek | Randevu/Controllers/BookingController.cs:47-148 | Unauthorized for a blank user name. NotFound for a missing or inactive salon. Otherwise the week, the window flag, the close instant, the caller's appointments and the grid over Monday..Sunday × enumerated slots × chairs. |
| BookingController.MyAppointments | Randevu/Controllers/BookingController.cs:79-87 | Exactly the projections of the caller's rows. |
| BookingController.MyAppointmentsAreTheCallers | Randevu/Controllers/BookingController.cs:60-87 | The caller's list is exactly their active appointments of the salon dated in the week. |
| BookingController.WeekGridShape | Randevu/Controllers/BookingController.cs:90-145 | The grid has 98·n cells (7 days × 14 slots × n chairs). The cell at (d·14 + k)·n + c is the one for Monday + d, slot k and chair c + 1. |
| BookingController.WeekCellsAt | Randevu/Controllers/BookingController.cs:90-145 | For any days, times and n chairs: the cell count, and the index of each (day, time, chair) cell. |
| BookingController.GridManualIsIsBlocked | Randevu/Controllers/BookingController.cs:107-110 | For a date in the week, the grid's manual test over the range query's rows equals BlockService's manual test over the whole table. |
| BookingController.GridRecurringIsIsBlocked | Randevu/Controllers/BookingController.cs:113-119 | The grid's recurring test over the salon's active blocks equals BlockService's recurring test over the whole table. |
| BookingController.GridBlockedIsIsBlocked | Randevu/Controllers/BookingController.cs:106-121 | For a date in the week, the grid closes exactly the cells IsBlockedAsync closes. |
| BookingController.WeekAppointmentsUnique | Randevu/Controllers/BookingController.cs:127 | Under the unique index, the week holds at most one row per (date, time, chair). |
| BookingController.BookingAtIsTheHolder | Randevu/Controllers/BookingController.cs:127-128 | The row found for a cell is the one active row of the table with the cell's key, and there is none exactly when no active row holds it. |
| BookingController.CellMeaning | Randevu/Controllers/BookingController.cs:106-140 | Closed exactly when blocked. Booked exactly when not blocked and an active row holds the cell. Name and id are shown exactly when that row is the caller's own, and are hidden otherwise. |
| AdminController.RequireAdmin | Randevu/Controllers/AdminController.cs:18-28 | ok exactly when the first active staff row of the user has Yetki = 1. That first row is then returned, so its SalonId decides the scope; otherwise a blank staff. |
| AdminController.RequireAdminSingleAccount | Randevu/Controllers/AdminController.cs:18-28 | With at most one active row per user, ok exactly when an active row with Yetki = 1 exists. |
| AdminController.SalonScope | Randevu/Controllers/AdminController.cs:30-34 | SalonId 0 reaches every salon. Any other value reaches exactly its own salon. |
| AdminController.Salons | Randevu/Controllers/AdminController.cs:46-57 | None for non-administrators. Otherwise exactly the salons the staff row may access; all of them for a global administrator. |
| AdminController.FindSalon | Randevu/Controllers/AdminController.cs:113-114 | None exactly when no salon has the id. Otherwise that salon's position. |
| AdminController.PlanSalonSave | Randevu/Controllers/AdminController.cs:88-123 | Each outcome holds exactly under its condition, in source order: Forbidden, chair count outside 1..10, NotFound, Failed when the Name bound to null (dto.Name.Trim() throws), create, update. A new salon has the trimmed name, the given count and flag, and SlotMinutes 30. An update changes only Name, ChairCount and IsActive. |
| AdminController.SavedSalonsHaveValidChairs | Randevu/Controllers/AdminController.cs:94-107 | Every salon SalonSave stores has 1..10 chairs. A created salon gets SlotMinutes 30; an updated one keeps its id and its SlotMinutes. |
| AdminController.SalonSave | Randevu/Controllers/AdminController.cs:88-123 | Appends the new salon, or overwrites the one row, as planned. On any refusal, and on the null-name failure, the table is unchanged. |
| AdminController.PlanManualBlock | Randevu/Controllers/AdminController.cs:153-177 | Forbidden, bad date, bad start, bad end, and end ≤ start, each exactly under its condition in source order. Otherwise one active block with the given fields and the caller as author. |
| AdminController.CreateManualBlock | Randevu/Controllers/AdminController.cs:153-177 | Appends exactly the planned block, or changes nothing. |
| AdminController.AddedManualBlockEffect | Randevu/Controllers/AdminController.cs:164-175 | After the insert, a cell is blocked exactly when it was blocked before or the new block covers it. |
| AdminController.PlanRecurringBlock | Randevu/Controllers/AdminController.cs:181-217 | Forbidden, bad times, end ≤ start, and a Weekly day outside 1..7, each exactly under its condition. Daily is stored without a weekday. A stored Daily or Weekly block matches its entity's rule. |
| AdminController.CreateRecurringBlock | Randevu/Controllers/AdminController.cs:181-217 | Appends exactly the planned block, or changes nothing. The entity rule for Daily/Weekly rows is preserved. |
| AdminController.PlanDisable | Randevu/Controllers/AdminController.cs:221-251 | Forbidden exactly without access. NotFound exactly with access and no row found. Otherwise disables the row found. |
| AdminController.FindManualBlock | Randevu/Controllers/AdminController.cs:227 | The position of a row matching both id and salon, or None exactly when there is none. |
| AdminController.FindManualBlockById | Randevu/Controllers/AdminController.cs:227 | With ids as positions, that is row id − 1 when it belongs to the salon. |
| AdminController.DisableManualBlock | Randevu/Controllers/AdminController.cs:221-234 | Clears IsActive on exactly the matching row and changes nothing else; otherwise changes nothing. |
| AdminController.FindRecurringBlock | Randevu/Controllers/AdminController.cs:244 | The position of a row matching both id and salon, or None exactly when there is none. |
| AdminController.FindRecurringBlockById | Randevu/Controllers/AdminController.cs:244 | With ids as positions, that is row id − 1 when it belongs to the salon. |
| AdminController.DisableRecurringBlock | Randevu/Controllers/AdminController.cs:238-251 | Clears IsActive on exactly the matching row and changes nothing else; otherwise changes nothing. The entity rule is preserved. |
| AdminController.DisabledManualBlockEffect | Randevu/Controllers/AdminController.cs:230 | A disabled manual block closes nothing; every other block closes what it closed before. |
| AdminController.DisabledRecurringBlockEffect | Randevu/Controllers/AdminController.cs:247 | A disabled recurring block closes nothing; every other block closes what it closed before. |
| AdminController.InsertByTimeSorted | Randevu/Controllers/AdminController.cs:283 | Inserting into rows sorted by (Date, StartTime, ChairNo) keeps them sorted. |
| AdminController.SortByTime | Randevu/Controllers/AdminController.cs:283 | Sorted by (Date, StartTime, ChairNo), and a permutation of its input. |
| AdminController.ReportAppointments | Randevu/Controllers/AdminController.cs:281-283 | Sorted. Each qualifying row is kept with its multiplicity and every other row is dropped: active, of the salon, from ≤ Date ≤ to. |
| AdminController.ReportRun | Randevu/Controllers/AdminController.cs:271-303 | Forbidden, bad From, bad To, and To < From, each exactly under its condition. Otherwise one report line per queried row, in order. |
| AdminController.ReportOrderIsStrict | Randevu/Controllers/AdminController.cs:283 | Under the unique index, no two report lines share date, time and chair, so the order is strict. |
| Data.HasBookingKey | Randevu/Data/AppDbContext.cs:28-30 | True exactly when a stored row holds the key. |
| Data.SameKeySameRow | Randevu/Data/AppDbContext.cs:28-30 | Under the index, two stored rows with one key are the same row. |
| Data.LedgerStepTransitive | Randevu/Controllers/BookingController.cs:217-271 | "Rows are only appended or switched off" composes across requests. |
| Data.CancelledTupleNeverRebooked | Randevu/Data/AppDbContext.cs:28-30 | Once a tuple's row is cancelled, no active row ever holds that tuple again. |
| Data.AppDb.TryAddAppointment | Randevu/Controllers/BookingController.cs:217-227 | The insert happens exactly when no stored row holds the key, and keeps the index. |
| Data.AppDb.DeactivateAppointment | Randevu/Controllers/BookingController.cs:270-271 | Only that row's IsActive is cleared. |
| Data.AppDb.AddSalon | Randevu/Controllers/AdminController.cs:97-108 | The new salon is appended as the last row; the id invariant and the index are kept. |
| Data.AppDb.SetSalon | Randevu/Controllers/AdminController.cs:109-119 | Only that one salon row is replaced; its id stays. |
| Data.AppDb.AddManualBlock | Randevu/Controllers/AdminController.cs:164-175 | The new block is appended as the last row. |
| Data.AppDb.DeactivateManualBlock | Randevu/Controllers/AdminController.cs:230-231 | Only that block's IsActive is cleared. |
| Data.AppDb.AddRecurringBlock | Randevu/Controllers/AdminController.cs:203-215 | The new block is appended as the last row. |
| Data.AppDb.DeactivateRecurringBlock | Randevu/Controllers/AdminController.cs:247-248 | Only that block's IsActive is cleared. |
| Data.AppDb.AddTimeSlot | Randevu/Services/WeeklySlotGenerator.cs:101-109 | The new slot is appended as the last row, numbered by its position. |
| WeeklySlotGenerator.GenerateRunDue | Randevu/Services/WeeklySlotGenerator.cs:30-50 | When the run is due, it adds the missing rows of every active salon's coming week, checked against the table itself. |
| WeeklySlotGenerator.AddMissingNothingNew | Randevu/Services/WeeklySlotGenerator.cs:92-99 | When the saved table already has every wanted tuple, nothing is added. |
| WeeklySlotGenerator.SalonWantsMembers | Randevu/Services/WeeklySlotGenerator.cs:61-90 | A salon's week wants a tuple exactly when it is on one of the 7 days, at a start time of the two ranges, for a chair 1..ChairCount. |
| Entities.BlockTypeFromCode | Randevu/Entities/RecurringBlock.cs:3-7 | The type is Daily exactly for code 1 and Weekly exactly for code 2; any other code is kept as Undefined(code). |
| Text.Trim | Randevu/Controllers/AdminController.cs:103 | No white space at either end, and the result is the input with blank ends removed. |
| WeeklySlotGenerator.NextMonday | Randevu/Services/WeeklySlotGenerator.cs:37-38 | A Monday 0..6 days ahead; today + 3 on a Friday. |
| WeeklySlotGenerator.HasSlot | Randevu/Services/WeeklySlotGenerator.cs:92-96 | True exactly when a row has the want's salon, chair, date and start. |
| WeeklySlotGenerator.ActiveSalons | Randevu/Services/WeeklySlotGenerator.cs:55-57 | Exactly the active salons. |
| WeeklySlotGenerator.TryGenerate | Randevu/Services/WeeklySlotGenerator.cs:25-51 | Generates exactly on a Friday from 08:00 when no row is dated the next Monday. The table becomes GenerateRun of the old table. |
| WeeklySlotGenerator.GenerateWeek | Randevu/Services/WeeklySlotGenerator.cs:53-78 | The salon loop adds the missing rows of every active salon's week, each checked against the table as saved before the run. |
| WeeklySlotGenerator.GenerateSalonWeek | Randevu/Services/WeeklySlotGenerator.cs:61-74 | The day loop adds the missing rows of days 0..6, morning then afternoon. |
| WeeklySlotGenerator.GenerateSlots | Randevu/Services/WeeklySlotGenerator.cs:80-112 | The time loop adds the missing rows for every start time in [start, end) stepped by SlotMinutes, chair by chair. |
| WeeklySlotGenerator.GenerateChairs | Randevu/Services/WeeklySlotGenerator.cs:90-110 | The chair loop adds the missing rows of chairs 1..ChairCount. |
| WeeklySlotGenerator.GenerateChair | Randevu/Services/WeeklySlotGenerator.cs:92-109 | Adds one free row exactly when the saved table lacks the tuple. |
| WeeklySlotGenerator.AddMissingKeepsRows | Randevu/Services/WeeklySlotGenerator.cs:98-109 | Existing rows stay as they were; rows are only appended. |
| WeeklySlotGenerator.AddMissingNewRows | Randevu/Services/WeeklySlotGenerator.cs:98-109 | Every appended row is the free row of a want whose tuple the saved table lacks, numbered by its position. |
| WeeklySlotGenerator.AddMissingCovers | Randevu/Services/WeeklySlotGenerator.cs:92-109 | Every want's tuple is in the saved table or in the result. |
| WeeklySlotGenerator.AddMissingUnique | Randevu/Services/WeeklySlotGenerator.cs:92-109 | Wants with distinct tuples, checked against the table itself, introduce no duplicate tuple. |
| WeeklySlotGenerator.WeekWantsMembers | Randevu/Services/WeeklySlotGenerator.cs:59-90 | A run wants a tuple exactly when it is for a listed salon, a day 0..6 from Monday, a start time of its two ranges and a chair 1..ChairCount, one slot long. |
| WeeklySlotGenerator.WeekWantsDistinct | Randevu/Services/WeeklySlotGenerator.cs:59-90 | For salons with distinct ids, no tuple is wanted twice. |
| WeeklySlotGenerator.ThirtyMinuteSalonsFollowTheGrid | Randevu/Services/WeeklySlotGenerator.cs:66-73 | With SlotMinutes = 30, a day's start times are exactly SlotRules' enumerated slots. |
| WeeklySlotGenerator.GenerateRunIdempotent | Randevu/Services/WeeklySlotGenerator.cs:44-48 | A second run at the same instant changes nothing. |
| WeeklySlotGenerator.GenerateRunCovers | Randevu/Services/WeeklySlotGenerator.cs:55-109 | After a run that generates, every active salon has a row for each day, each start time of its ranges and each chair. |
| WeeklySlotGenerator.GenerateRunKeepsRows | Randevu/Services/WeeklySlotGenerator.cs:30-48 | A run only appends. On a day other than Friday, before 08:00, or when the Monday has rows, it changes nothing. |
| WeeklySlotGenerator.GenerateRunNewRows | Randevu/Services/WeeklySlotGenerator.cs:101-109 | Every new row is free, unowned, numbered by its position, and its tuple is new. It is for an active salon's chair, dated in the coming week, at a start time of its ranges, one slot long. |
| WeeklySlotGenerator.GenerateRunNoDuplicates | Randevu/Services/WeeklySlotGenerator.cs:92-99 | Over a table without duplicate tuples, and with salon ids as positions, a run introduces no duplicate (SalonId, KoltukId, SlotDate, StartTime). |

## Left out

- Clock and time zone: `now` is a parameter everywhere. TimeService.cs is not part of this model.
- Sub-second ticks of DateTime and TimeOnly are not modelled. Time has one-second granularity.
- Parsing and formatting:
  - `DateOnly`/`TimeOnly.TryParse` results are `Option` inputs.
  - Dates and times are never rendered as text.
  - Reasons are datatypes that carry the instant or date they quote, not message strings.
- Claims:
  - the engineer flag (the "Müh." test on the Description claim) is an input;
  - the display name built from the name claims is an input;
  - a missing user name is modelled as the empty string.
- Authentication, rate limiting, antiforgery and hosting are framework configuration.
- SignalR delivery is not modelled. Book and Cancel return the event they would publish, with its group key's salon and Monday.
- Entity Framework machinery is not modelled:
  - async queries and CancellationToken;
  - the RowVersion concurrency token, and DbUpdateException (it becomes the JustFilled result);
  - row creation timestamps (CreatedAtUtc, CreatedAt).
- Concurrency: each request is one atomic step on the tables. Interleavings of parallel requests are not modelled.
- Identity columns are 1-based positions. `long`/`int` id overflow is not modelled.
- The background loop (ExecuteAsync with its five-minute delay) is not modelled; TryGenerate is one iteration of it.
- Name comparisons: `Restricts` (the `a.UserName == userName` of EligibilityService.cs:20) and `ActiveAccount` (the `s.Kullanici == user` of AdminController.cs:21) compare exactly. These two run inside SQL Server queries, where the database collation decides equality. A case-insensitive collation, or one that ignores trailing spaces, would let "ALI" and "ali" share the 14-day restriction and the administrator row. The ownership tests BookingController.cs:79, 133 and 264 compare in memory, ordinally, as the model does everywhere.
- WeeklySlotGenerator.TryGenerate: does not model SaveChanges failing on an out-of-range EndTime. SlotMinutes ≥ 630 makes the afternoon's first EndTime reach 24:00. SQL Server's `time` column rejects that at the single SaveChanges (WeeklySlotGenerator.cs:77), so the source stores nothing and the exception leaves ExecuteAsync. The model appends the rows.
- WeeklySlotGenerator.TryGenerate: requires a positive SlotMinutes for every active salon.
  - The source's `time += SlotMinutes` loop never ends otherwise.
  - This precondition is the only place the model narrows what the source accepts.
- WeeklySlotGenerator.GenerateWeek and GenerateSlots: the nested loops are split into the methods GenerateSalonWeek, GenerateChairs and GenerateChair. They run in the same order.
- WeeklySlotGenerator.GenerateRunNoDuplicates: assumes salon ids are positions, so the ids are distinct. Concurrent runs are not covered.
- AdminController.Salons: the OrderBy(Name) is not modelled. The result keeps table order.
- AdminController.ReportRun: the CreatedAtUtc column of a report line is not carried.
- The view-only actions Index, SalonEdit, Blocks and Report are not modelled. They only fill view data; SalonEdit and Blocks repeat the access checks that the modelled actions perform.
- The Blocks listing's ordering and Take(200) are not modelled.
- SlotStatus values other than Bos, and the Chair entity, are not used.
- UI pages, the SalonsController and the HomeController are not part of this model.
