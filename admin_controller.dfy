/** The administration pages: who counts as an administrator, which salons
    they manage, the salon, block and report actions. Every action first
    requires an active staff row with Yetki = 1 for the caller; a staff row
    with SalonId = 0 manages every salon, any other value only that salon. */
module AdminController {
  import opened Wrappers
  import opened Calendar
  import opened Entities
  import opened Data
  import opened Text
  import Linq
  import BlockService

  // ---------------------------------------------------------------------
  // Who may act

  /** RequireAdminAsync's pair. */
  datatype AdminCheck = AdminCheck(ok: bool, staff: Staff)

  /** new Staff(): every field at its default (the null account name as ""). */
  const BlankStaff: Staff := Staff(0, "", 0, 0, true)

  predicate ActiveAccount(s: Staff, user: string) {
    s.aktif && s.kullanici == user
  }

  /** The first active staff row of the caller decides, and it must have Yetki = 1. */
  function RequireAdmin(staffs: seq<Staff>, user: string): (r: AdminCheck)
    ensures r.ok <==> exists i :: 0 <= i < |staffs| && ActiveAccount(staffs[i], user) && staffs[i].yetki == 1 &&
                                  forall j :: 0 <= j < i ==> !ActiveAccount(staffs[j], user)
    ensures r.ok ==> r.staff in staffs && ActiveAccount(r.staff, user) && r.staff.yetki == 1
    ensures r.ok ==> exists i :: 0 <= i < |staffs| && r.staff == staffs[i] && ActiveAccount(staffs[i], user) &&
                                forall j :: 0 <= j < i ==> !ActiveAccount(staffs[j], user)
    ensures !r.ok ==> r.staff == BlankStaff
  {
    var k := Linq.FirstIndex(staffs, (s: Staff) => ActiveAccount(s, user));
    if k.None? || staffs[k.value].yetki != 1 then
      AdminCheck(false, BlankStaff)
    else
      AdminCheck(true, staffs[k.value])
  }

  /** When the caller has at most one active staff row, being an administrator
      means exactly having an active row with Yetki = 1. */
  lemma {:induction false} RequireAdminSingleAccount(staffs: seq<Staff>, user: string)
    requires forall i, j :: 0 <= i < j < |staffs| && ActiveAccount(staffs[i], user) ==> !ActiveAccount(staffs[j], user)
    ensures RequireAdmin(staffs, user).ok <==>
      exists i :: 0 <= i < |staffs| && ActiveAccount(staffs[i], user) && staffs[i].yetki == 1
  {
    if i :| 0 <= i < |staffs| && ActiveAccount(staffs[i], user) && staffs[i].yetki == 1 {
      assert forall j :: 0 <= j < i ==> !ActiveAccount(staffs[j], user);
    }
  }

  predicate CanAccessSalon(staff: Staff, salonId: int) {
    staff.salonId == 0 || staff.salonId == salonId
  }

  /** An administrator who may act on the salon. */
  predicate Authorized(staffs: seq<Staff>, user: string, salonId: int) {
    var admin := RequireAdmin(staffs, user);
    admin.ok && CanAccessSalon(admin.staff, salonId)
  }

  /** A salon administrator reaches only their own salon; a global one reaches all. */
  lemma SalonScope(staff: Staff, salonId: int)
    ensures staff.salonId == 0 ==> CanAccessSalon(staff, salonId)
    ensures staff.salonId != 0 ==> (CanAccessSalon(staff, salonId) <==> salonId == staff.salonId)
  {
  }

  // ---------------------------------------------------------------------
  // Results

  datatype AdminError =
    | ChairCountOutOfRange
    | BadDate
    | BadStartTime
    | BadEndTime
    | EndNotAfterStart
    | BadWeekday
    | BadFrom
    | BadTo
    | ToBeforeFrom

  /** What an action answers: the redirect after a change, or why nothing
      changed. Failed is an unhandled exception (HTTP 500) before SaveChanges. */
  datatype AdminResult = Redirected | Forbidden | BadRequest(error: AdminError) | NotFound | Failed

  // ---------------------------------------------------------------------
  // Salons

  /** Salons(): the salons an administrator is shown, before ordering by name;
      None is Forbid. */
  function Salons(staffs: seq<Staff>, user: string, salons: seq<Salon>): (r: Option<seq<Salon>>)
    ensures r.None? <==> !RequireAdmin(staffs, user).ok
    ensures r.Some? ==> forall s :: s in r.value <==> s in salons && CanAccessSalon(RequireAdmin(staffs, user).staff, s.id)
    ensures r.Some? && RequireAdmin(staffs, user).staff.salonId == 0 ==> r.value == salons
  {
    var admin := RequireAdmin(staffs, user);
    if !admin.ok then None
    else if admin.staff.salonId != 0 then Some(Linq.Where(salons, (s: Salon) => s.id == admin.staff.salonId))
    else Some(salons)
  }

  /** The salon form: no id creates a salon, an id edits that salon. A name of
      None is the null the model binder makes of an empty Name field. */
  datatype SalonUpsert = SalonUpsert(id: Option<int>, name: Option<string>, chairCount: int, isActive: bool)

  const MaxChairs: int := 10
  const DefaultSlotMinutes: int := 30

  /** Salons.FirstOrDefault(s => s.Id == id), active or not, as a position. */
  function FindSalon(salons: seq<Salon>, id: int): (r: Option<nat>)
    ensures r.None? <==> forall i :: 0 <= i < |salons| ==> salons[i].id != id
    ensures r.Some? ==> r.value < |salons| && salons[r.value].id == id
  {
    Linq.FirstIndex(salons, (s: Salon) => s.id == id)
  }

  /** What SalonSave does to the salon table. */
  datatype SalonPlan =
    | CreateSalon(salon: Salon)
    | UpdateSalon(index: nat, salon: Salon)
    | RefuseSave(result: AdminResult)

  /** SalonSave's decisions, in source order: administrator, chair count,
      then create (global administrators only) or update (a reachable, existing salon);
      either of the last two fails on a null name, at dto.Name.Trim(). */
  function PlanSalonSave(staffs: seq<Staff>, user: string, dto: SalonUpsert, salons: seq<Salon>): (r: SalonPlan)
    ensures var admin := RequireAdmin(staffs, user);
      var inRange := 1 <= dto.chairCount <= MaxChairs;
      var creates := admin.ok && inRange && dto.id.None? && admin.staff.salonId == 0;
      var updates := admin.ok && inRange && dto.id.Some? && CanAccessSalon(admin.staff, dto.id.value) &&
                     FindSalon(salons, dto.id.value).Some?;
      && (r == RefuseSave(Failed) <==> (creates || updates) && dto.name.None?)
      && (r == RefuseSave(Forbidden) <==>
            !admin.ok ||
            (inRange && dto.id.None? && admin.staff.salonId != 0) ||
            (inRange && dto.id.Some? && !CanAccessSalon(admin.staff, dto.id.value)))
      && (r == RefuseSave(BadRequest(ChairCountOutOfRange)) <==> admin.ok && !inRange)
      && (r == RefuseSave(NotFound) <==>
            admin.ok && inRange && dto.id.Some? && CanAccessSalon(admin.staff, dto.id.value) &&
            FindSalon(salons, dto.id.value).None?)
      && (r.CreateSalon? <==> creates && dto.name.Some?)
      && (r.UpdateSalon? <==> updates && dto.name.Some?)
    ensures r.CreateSalon? ==>
      dto.name.Some? && r.salon == Salon(|salons| + 1, Trim(dto.name.value), dto.isActive, dto.chairCount, DefaultSlotMinutes)
    ensures r.UpdateSalon? ==>
      dto.id.Some? && dto.name.Some? && FindSalon(salons, dto.id.value) == Some(r.index) &&
      r.salon == salons[r.index].(name := Trim(dto.name.value), chairCount := dto.chairCount, isActive := dto.isActive)
  {
    var admin := RequireAdmin(staffs, user);
    if !admin.ok then RefuseSave(Forbidden)
    else if dto.chairCount < 1 || dto.chairCount > MaxChairs then RefuseSave(BadRequest(ChairCountOutOfRange))
    else if dto.id.None? then
      if admin.staff.salonId != 0 then RefuseSave(Forbidden)
      else if dto.name.None? then RefuseSave(Failed)
      else CreateSalon(Salon(|salons| + 1, Trim(dto.name.value), dto.isActive, dto.chairCount, DefaultSlotMinutes))
    else if !CanAccessSalon(admin.staff, dto.id.value) then RefuseSave(Forbidden)
    else
      var k := FindSalon(salons, dto.id.value);
      if k.None? then RefuseSave(NotFound)
      else if dto.name.None? then RefuseSave(Failed)
      else
        var s := salons[k.value];
        UpdateSalon(k.value, s.(name := Trim(dto.name.value), chairCount := dto.chairCount, isActive := dto.isActive))
  }

  /** Every salon SalonSave stores has 1..10 chairs, and only the creating
      branch chooses the slot length, which it sets to 30 minutes. */
  lemma SavedSalonsHaveValidChairs(staffs: seq<Staff>, user: string, dto: SalonUpsert, salons: seq<Salon>)
    ensures var r := PlanSalonSave(staffs, user, dto, salons);
      && (r.CreateSalon? ==> 1 <= r.salon.chairCount <= MaxChairs && r.salon.slotMinutes == DefaultSlotMinutes)
      && (r.UpdateSalon? ==> 1 <= r.salon.chairCount <= MaxChairs && r.index < |salons| &&
                             r.salon.id == salons[r.index].id && r.salon.slotMinutes == salons[r.index].slotMinutes)
  {
  }

  /** SalonSave: Add or edit in place, then SaveChanges. */
  method SalonSave(db: AppDb, user: string, dto: SalonUpsert) returns (r: AdminResult)
    requires db.Valid()
    modifies db`salons
    ensures db.Valid()
    ensures match PlanSalonSave(db.staffs, user, dto, old(db.salons))
      case CreateSalon(s) => r == Redirected && db.salons == old(db.salons) + [s]
      case UpdateSalon(i, s) => r == Redirected && db.salons == old(db.salons)[i := s]
      case RefuseSave(result) => r == result && db.salons == old(db.salons)
  {
    var plan := PlanSalonSave(db.staffs, user, dto, db.salons);
    match plan
    case CreateSalon(s) =>
      db.AddSalon(s);
      r := Redirected;
    case UpdateSalon(i, s) =>
      db.SetSalon(i, s);
      r := Redirected;
    case RefuseSave(result) =>
      r := result;
  }

  // ---------------------------------------------------------------------
  // Blocks

  /** What a create action does: insert one row, or answer without a change. */
  datatype Plan<T> = Insert(row: T) | Refuse(result: AdminResult)

  /** The manual block form, with its date and time texts already parsed. */
  datatype ManualBlockCreate = ManualBlockCreate(
    salonId: int, date: Option<Day>, startTime: Option<TimeOfDay>, endTime: Option<TimeOfDay>,
    chairNo: Option<int>, reason: Option<string>)

  /** CreateManualBlock's decisions; the new row gets the given id and the caller as its author. */
  function PlanManualBlock(staffs: seq<Staff>, user: string, dto: ManualBlockCreate, id: int): (r: Plan<ManualBlock>)
    ensures var ok := Authorized(staffs, user, dto.salonId);
      && (r == Refuse(Forbidden) <==> !ok)
      && (r == Refuse(BadRequest(BadDate)) <==> ok && dto.date.None?)
      && (r == Refuse(BadRequest(BadStartTime)) <==> ok && dto.date.Some? && dto.startTime.None?)
      && (r == Refuse(BadRequest(BadEndTime)) <==> ok && dto.date.Some? && dto.startTime.Some? && dto.endTime.None?)
      && (r == Refuse(BadRequest(EndNotAfterStart)) <==>
            ok && dto.date.Some? && dto.startTime.Some? && dto.endTime.Some? && dto.endTime.value <= dto.startTime.value)
      && (r.Insert? <==>
            ok && dto.date.Some? && dto.startTime.Some? && dto.endTime.Some? && dto.startTime.value < dto.endTime.value)
    ensures r.Insert? ==>
      r.row == ManualBlock(id, dto.salonId, dto.date.value, dto.startTime.value, dto.endTime.value,
                           dto.chairNo, dto.reason.GetOr(""), user, true)
  {
    if !Authorized(staffs, user, dto.salonId) then Refuse(Forbidden)
    else if dto.date.None? then Refuse(BadRequest(BadDate))
    else if dto.startTime.None? then Refuse(BadRequest(BadStartTime))
    else if dto.endTime.None? then Refuse(BadRequest(BadEndTime))
    else if dto.endTime.value <= dto.startTime.value then Refuse(BadRequest(EndNotAfterStart))
    else
      Insert(ManualBlock(id, dto.salonId, dto.date.value, dto.startTime.value, dto.endTime.value,
                         dto.chairNo, dto.reason.GetOr(""), user, true))
  }

  method CreateManualBlock(db: AppDb, user: string, dto: ManualBlockCreate) returns (r: AdminResult)
    requires db.Valid()
    modifies db`manualBlocks
    ensures db.Valid()
    ensures match PlanManualBlock(db.staffs, user, dto, |old(db.manualBlocks)| + 1)
      case Insert(b) => r == Redirected && db.manualBlocks == old(db.manualBlocks) + [b]
      case Refuse(result) => r == result && db.manualBlocks == old(db.manualBlocks)
  {
    var plan := PlanManualBlock(db.staffs, user, dto, |db.manualBlocks| + 1);
    match plan
    case Insert(b) =>
      db.AddManualBlock(b);
      r := Redirected;
    case Refuse(result) =>
      r := result;
  }

  /** Adding an active manual block closes exactly the cells it covers, in
      addition to those already closed. */
  lemma {:induction false} AddedManualBlockEffect(
    manual: seq<ManualBlock>, recurring: seq<RecurringBlock>, b: ManualBlock,
    salonId: int, date: Day, t: TimeOfDay, chair: int)
    requires b.isActive
    ensures BlockService.IsBlocked(manual + [b], recurring, salonId, date, t, chair) <==>
      BlockService.IsBlocked(manual, recurring, salonId, date, t, chair) ||
      (b.salonId == salonId && b.date == date && BlockService.ChairMatches(b.chairNo, chair) &&
       b.startTime <= t < b.endTime)
  {
    var m := manual + [b];
    assert m[|manual|] == b;
    assert forall i :: 0 <= i < |manual| ==> m[i] == manual[i];
    if i :| 0 <= i < |m| && BlockService.ManualBlockCovers(m[i], salonId, date, t, chair) {
      if i < |manual| {
        assert BlockService.ManualBlockCovers(manual[i], salonId, date, t, chair);
      }
    }
  }

  /** The recurring block form, with its time texts already parsed and Type as sent. */
  datatype RecurringBlockCreate = RecurringBlockCreate(
    salonId: int, typeCode: int, dayOfWeekIso: Option<int>,
    startTime: Option<TimeOfDay>, endTime: Option<TimeOfDay>, chairNo: Option<int>, reason: Option<string>)

  /** What the entity promises of a stored block: Daily has no weekday, Weekly one in 1..7. */
  predicate RecurringShapeOk(b: RecurringBlock) {
    (b.kind == Daily ==> b.dayOfWeekIso.None?) &&
    (b.kind == Weekly ==> b.dayOfWeekIso.Some? && 1 <= b.dayOfWeekIso.value <= 7)
  }

  predicate BadWeeklyDay(dto: RecurringBlockCreate) {
    BlockTypeFromCode(dto.typeCode) == Weekly &&
    (dto.dayOfWeekIso.None? || dto.dayOfWeekIso.value < 1 || dto.dayOfWeekIso.value > 7)
  }

  /** CreateRecurringBlock's decisions. A type code other than Daily and
      Weekly is stored as sent, with the weekday as sent. */
  function PlanRecurringBlock(staffs: seq<Staff>, user: string, dto: RecurringBlockCreate, id: int): (r: Plan<RecurringBlock>)
    ensures var ok := Authorized(staffs, user, dto.salonId);
      var times := dto.startTime.Some? && dto.endTime.Some?;
      && (r == Refuse(Forbidden) <==> !ok)
      && (r == Refuse(BadRequest(BadStartTime)) <==> ok && dto.startTime.None?)
      && (r == Refuse(BadRequest(BadEndTime)) <==> ok && dto.startTime.Some? && dto.endTime.None?)
      && (r == Refuse(BadRequest(EndNotAfterStart)) <==> ok && times && dto.endTime.value <= dto.startTime.value)
      && (r == Refuse(BadRequest(BadWeekday)) <==>
            ok && times && dto.startTime.value < dto.endTime.value && BadWeeklyDay(dto))
      && (r.Insert? <==> ok && times && dto.startTime.value < dto.endTime.value && !BadWeeklyDay(dto))
    ensures r.Insert? ==>
      var kind := BlockTypeFromCode(dto.typeCode);
      r.row == RecurringBlock(id, dto.salonId, kind, if kind == Daily then None else dto.dayOfWeekIso,
                              dto.startTime.value, dto.endTime.value, dto.chairNo, dto.reason.GetOr(""), user, true)
    ensures r.Insert? ==> RecurringShapeOk(r.row)
  {
    if !Authorized(staffs, user, dto.salonId) then Refuse(Forbidden)
    else if dto.startTime.None? then Refuse(BadRequest(BadStartTime))
    else if dto.endTime.None? then Refuse(BadRequest(BadEndTime))
    else if dto.endTime.value <= dto.startTime.value then Refuse(BadRequest(EndNotAfterStart))
    else
      var kind := BlockTypeFromCode(dto.typeCode);
      if kind == Weekly && (dto.dayOfWeekIso.None? || dto.dayOfWeekIso.value < 1 || dto.dayOfWeekIso.value > 7) then
        Refuse(BadRequest(BadWeekday))
      else
        var dow := if kind == Daily then None else dto.dayOfWeekIso;
        Insert(RecurringBlock(id, dto.salonId, kind, dow, dto.startTime.value, dto.endTime.value,
                              dto.chairNo, dto.reason.GetOr(""), user, true))
  }

  method CreateRecurringBlock(db: AppDb, user: string, dto: RecurringBlockCreate) returns (r: AdminResult)
    requires db.Valid()
    modifies db`recurringBlocks
    ensures db.Valid()
    ensures match PlanRecurringBlock(db.staffs, user, dto, |old(db.recurringBlocks)| + 1)
      case Insert(b) => r == Redirected && db.recurringBlocks == old(db.recurringBlocks) + [b]
      case Refuse(result) => r == result && db.recurringBlocks == old(db.recurringBlocks)
    ensures (forall i :: 0 <= i < |old(db.recurringBlocks)| ==> RecurringShapeOk(old(db.recurringBlocks)[i])) ==>
            forall i :: 0 <= i < |db.recurringBlocks| ==> RecurringShapeOk(db.recurringBlocks[i])
  {
    var plan := PlanRecurringBlock(db.staffs, user, dto, |db.recurringBlocks| + 1);
    match plan
    case Insert(b) =>
      db.AddRecurringBlock(b);
      r := Redirected;
    case Refuse(result) =>
      r := result;
  }

  /** What a disable action does: switch one row off, or answer without a change. */
  datatype DisablePlan = DisableAt(index: nat) | RefuseDisable(result: AdminResult)

  /** The two Disable actions' decisions, given the row the lookup found. */
  function PlanDisable(staffs: seq<Staff>, user: string, salonId: int, found: Option<nat>): (r: DisablePlan)
    ensures r == RefuseDisable(Forbidden) <==> !Authorized(staffs, user, salonId)
    ensures r == RefuseDisable(NotFound) <==> Authorized(staffs, user, salonId) && found.None?
    ensures r.DisableAt? <==> Authorized(staffs, user, salonId) && found.Some?
    ensures r.DisableAt? ==> found == Some(r.index)
  {
    if !Authorized(staffs, user, salonId) then RefuseDisable(Forbidden)
    else if found.None? then RefuseDisable(NotFound)
    else DisableAt(found.value)
  }

  /** ManualBlocks.FirstOrDefault(x => x.Id == id && x.SalonId == salonId), active or not. */
  function FindManualBlock(manual: seq<ManualBlock>, id: int, salonId: int): (r: Option<nat>)
    ensures r.None? <==> forall i :: 0 <= i < |manual| ==> !(manual[i].id == id && manual[i].salonId == salonId)
    ensures r.Some? ==> r.value < |manual| && manual[r.value].id == id && manual[r.value].salonId == salonId
  {
    Linq.FirstIndex(manual, (b: ManualBlock) => b.id == id && b.salonId == salonId)
  }

  /** With ids as positions, the row found is row id - 1, if it belongs to the salon. */
  lemma FindManualBlockById(manual: seq<ManualBlock>, id: int, salonId: int)
    requires ManualBlockIds(manual)
    ensures FindManualBlock(manual, id, salonId) ==
      if 1 <= id <= |manual| && manual[id - 1].salonId == salonId then Some(id - 1) else None
  {
    if 1 <= id <= |manual| && manual[id - 1].salonId != salonId {
      assert forall i :: 0 <= i < |manual| && manual[i].id == id ==> i == id - 1;
    }
  }

  method DisableManualBlock(db: AppDb, user: string, id: int, salonId: int) returns (r: AdminResult)
    requires db.Valid()
    modifies db`manualBlocks
    ensures db.Valid()
    ensures match PlanDisable(db.staffs, user, salonId, FindManualBlock(old(db.manualBlocks), id, salonId))
      case DisableAt(i) =>
        r == Redirected && db.manualBlocks == old(db.manualBlocks)[i := old(db.manualBlocks)[i].(isActive := false)]
      case RefuseDisable(result) => r == result && db.manualBlocks == old(db.manualBlocks)
  {
    var plan := PlanDisable(db.staffs, user, salonId, FindManualBlock(db.manualBlocks, id, salonId));
    match plan
    case DisableAt(i) =>
      db.DeactivateManualBlock(i);
      r := Redirected;
    case RefuseDisable(result) =>
      r := result;
  }

  /** RecurringBlocks.FirstOrDefault(x => x.Id == id && x.SalonId == salonId), active or not. */
  function FindRecurringBlock(recurring: seq<RecurringBlock>, id: int, salonId: int): (r: Option<nat>)
    ensures r.None? <==> forall i :: 0 <= i < |recurring| ==> !(recurring[i].id == id && recurring[i].salonId == salonId)
    ensures r.Some? ==> r.value < |recurring| && recurring[r.value].id == id && recurring[r.value].salonId == salonId
  {
    Linq.FirstIndex(recurring, (b: RecurringBlock) => b.id == id && b.salonId == salonId)
  }

  lemma FindRecurringBlockById(recurring: seq<RecurringBlock>, id: int, salonId: int)
    requires RecurringBlockIds(recurring)
    ensures FindRecurringBlock(recurring, id, salonId) ==
      if 1 <= id <= |recurring| && recurring[id - 1].salonId == salonId then Some(id - 1) else None
  {
    if 1 <= id <= |recurring| && recurring[id - 1].salonId != salonId {
      assert forall i :: 0 <= i < |recurring| && recurring[i].id == id ==> i == id - 1;
    }
  }

  method DisableRecurringBlock(db: AppDb, user: string, id: int, salonId: int) returns (r: AdminResult)
    requires db.Valid()
    modifies db`recurringBlocks
    ensures db.Valid()
    ensures match PlanDisable(db.staffs, user, salonId, FindRecurringBlock(old(db.recurringBlocks), id, salonId))
      case DisableAt(i) =>
        r == Redirected &&
        db.recurringBlocks == old(db.recurringBlocks)[i := old(db.recurringBlocks)[i].(isActive := false)]
      case RefuseDisable(result) => r == result && db.recurringBlocks == old(db.recurringBlocks)
    ensures (forall i :: 0 <= i < |old(db.recurringBlocks)| ==> RecurringShapeOk(old(db.recurringBlocks)[i])) ==>
            forall i :: 0 <= i < |db.recurringBlocks| ==> RecurringShapeOk(db.recurringBlocks[i])
  {
    var plan := PlanDisable(db.staffs, user, salonId, FindRecurringBlock(db.recurringBlocks, id, salonId));
    match plan
    case DisableAt(i) =>
      db.DeactivateRecurringBlock(i);
      r := Redirected;
    case RefuseDisable(result) =>
      r := result;
  }

  /** A disabled manual block closes nothing any more; the other blocks close what they closed. */
  lemma {:induction false} DisabledManualBlockEffect(
    manual: seq<ManualBlock>, recurring: seq<RecurringBlock>, i: nat,
    salonId: int, date: Day, t: TimeOfDay, chair: int)
    requires i < |manual|
    ensures var after := manual[i := manual[i].(isActive := false)];
      BlockService.IsBlocked(after, recurring, salonId, date, t, chair) <==>
      (exists j :: 0 <= j < |manual| && j != i && BlockService.ManualBlockCovers(manual[j], salonId, date, t, chair)) ||
      (exists j :: 0 <= j < |recurring| &&
                   BlockService.RecurringBlockCovers(recurring[j], salonId, BlockService.ToIsoDayOfWeek(date), t, chair))
  {
    var after := manual[i := manual[i].(isActive := false)];
    assert !BlockService.ManualBlockCovers(after[i], salonId, date, t, chair);
    assert forall j :: 0 <= j < |manual| && j != i ==> after[j] == manual[j];
  }

  /** A disabled recurring block closes nothing any more. */
  lemma {:induction false} DisabledRecurringBlockEffect(
    manual: seq<ManualBlock>, recurring: seq<RecurringBlock>, i: nat,
    salonId: int, date: Day, t: TimeOfDay, chair: int)
    requires i < |recurring|
    ensures var after := recurring[i := recurring[i].(isActive := false)];
      BlockService.IsBlocked(manual, after, salonId, date, t, chair) <==>
      (exists j :: 0 <= j < |manual| && BlockService.ManualBlockCovers(manual[j], salonId, date, t, chair)) ||
      (exists j :: 0 <= j < |recurring| && j != i &&
                   BlockService.RecurringBlockCovers(recurring[j], salonId, BlockService.ToIsoDayOfWeek(date), t, chair))
  {
    var after := recurring[i := recurring[i].(isActive := false)];
    assert !BlockService.RecurringBlockCovers(after[i], salonId, BlockService.ToIsoDayOfWeek(date), t, chair);
    assert forall j :: 0 <= j < |recurring| && j != i ==> after[j] == recurring[j];
  }

  // ---------------------------------------------------------------------
  // Report

  /** The report form, with its date texts already parsed. */
  datatype ReportFilter = ReportFilter(salonId: int, from: Option<Day>, to: Option<Day>)

  /** The projected columns of one report line (the creation timestamp is not modelled). */
  datatype ReportRow = ReportRow(id: int, date: Day, startTime: TimeOfDay, chairNo: int, userName: string, displayName: string)

  datatype ReportResult = ReportRows(rows: seq<ReportRow>) | ReportRefused(result: AdminResult)

  predicate InReport(a: Appointment, salonId: int, from: Day, to: Day) {
    a.isActive && a.salonId == salonId && a.date >= from && a.date <= to
  }

  /** OrderBy(Date).ThenBy(StartTime).ThenBy(ChairNo): a comes no later than b. */
  predicate NotAfter(a: Appointment, b: Appointment) {
    a.date < b.date ||
    (a.date == b.date && (a.startTime < b.startTime || (a.startTime == b.startTime && a.chairNo <= b.chairNo)))
  }

  predicate SortedByTime(s: seq<Appointment>) {
    forall i, j :: 0 <= i < j < |s| ==> NotAfter(s[i], s[j])
  }

  /** The ordering is total and transitive. */
  lemma NotAfterOrder(a: Appointment, b: Appointment, c: Appointment)
    ensures NotAfter(a, b) || NotAfter(b, a)
    ensures NotAfter(a, b) && NotAfter(b, c) ==> NotAfter(a, c)
  {
  }

  /** Places a in front of the first row it does not come after. */
  function InsertByTime(a: Appointment, s: seq<Appointment>): (r: seq<Appointment>)
    ensures multiset(r) == multiset(s) + multiset{a}
  {
    if s == [] then [a]
    else if NotAfter(a, s[0]) then [a] + s
    else
      assert s == [s[0]] + s[1..];
      [s[0]] + InsertByTime(a, s[1..])
  }

  lemma SortedTail(s: seq<Appointment>)
    requires SortedByTime(s) && s != []
    ensures SortedByTime(s[1..])
  {
    var tail := s[1..];
    forall i, j | 0 <= i < j < |tail| ensures NotAfter(tail[i], tail[j]) {
      assert tail[i] == s[i + 1] && tail[j] == s[j + 1];
    }
  }

  /** A row that comes no later than every sorted row may lead them. */
  lemma SortedCons(x: Appointment, r: seq<Appointment>)
    requires SortedByTime(r)
    requires forall k :: 0 <= k < |r| ==> NotAfter(x, r[k])
    ensures SortedByTime([x] + r)
  {
    var xr := [x] + r;
    forall i, j | 0 <= i < j < |xr| ensures NotAfter(xr[i], xr[j]) {
      assert xr[j] == r[j - 1];
      if i > 0 {
        assert xr[i] == r[i - 1];
      }
    }
  }

  /** Inserting into sorted rows keeps them sorted. */
  lemma {:induction false} InsertByTimeSorted(a: Appointment, s: seq<Appointment>)
    requires SortedByTime(s)
    ensures SortedByTime(InsertByTime(a, s))
    decreases |s|
  {
    if s == [] {
    } else if NotAfter(a, s[0]) {
      forall k | 0 <= k < |s| ensures NotAfter(a, s[k]) {
        NotAfterOrder(a, s[0], s[k]);
      }
      SortedCons(a, s);
    } else {
      var tail := s[1..];
      SortedTail(s);
      InsertByTimeSorted(a, tail);
      var rest := InsertByTime(a, tail);
      NotAfterOrder(a, s[0], a);
      forall k | 0 <= k < |rest| ensures NotAfter(s[0], rest[k]) {
        assert rest[k] in multiset(rest);
        if rest[k] != a {
          assert rest[k] in multiset(tail);
          var m :| 0 <= m < |tail| && tail[m] == rest[k];
          assert tail[m] == s[m + 1];
        }
      }
      SortedCons(s[0], rest);
    }
  }

  /** The rows in (date, start time, chair) order. */
  function SortByTime(s: seq<Appointment>): (r: seq<Appointment>)
    ensures SortedByTime(r)
    ensures multiset(r) == multiset(s)
  {
    if s == [] then []
    else
      assert s == [s[0]] + s[1..];
      var sorted := SortByTime(s[1..]);
      InsertByTimeSorted(s[0], sorted);
      InsertByTime(s[0], sorted)
  }

  /** The query behind the report: every active appointment of the salon dated
      from..to, each as often as it is stored, in (date, start time, chair) order. */
  function ReportAppointments(appts: seq<Appointment>, salonId: int, from: Day, to: Day): (r: seq<Appointment>)
    ensures SortedByTime(r)
    ensures forall a :: multiset(r)[a] == if InReport(a, salonId, from, to) then multiset(appts)[a] else 0
    ensures forall a :: a in r <==> a in appts && InReport(a, salonId, from, to)
  {
    var r := SortByTime(Linq.Where(appts, (a: Appointment) => InReport(a, salonId, from, to)));
    assert forall a :: a in r <==> a in multiset(r);
    r
  }

  function ToReportRow(a: Appointment): ReportRow {
    ReportRow(a.id, a.date, a.startTime, a.chairNo, a.userName, a.displayName)
  }

  /** ReportRun: administrator, salon, both dates, to >= from; then the rows. */
  function ReportRun(staffs: seq<Staff>, user: string, dto: ReportFilter, appts: seq<Appointment>): (r: ReportResult)
    ensures var ok := Authorized(staffs, user, dto.salonId);
      && (r == ReportRefused(Forbidden) <==> !ok)
      && (r == ReportRefused(BadRequest(BadFrom)) <==> ok && dto.from.None?)
      && (r == ReportRefused(BadRequest(BadTo)) <==> ok && dto.from.Some? && dto.to.None?)
      && (r == ReportRefused(BadRequest(ToBeforeFrom)) <==> ok && dto.from.Some? && dto.to.Some? && dto.to.value < dto.from.value)
      && (r.ReportRows? <==> ok && dto.from.Some? && dto.to.Some? && dto.from.value <= dto.to.value)
    ensures r.ReportRows? ==>
      var rows := ReportAppointments(appts, dto.salonId, dto.from.value, dto.to.value);
      |r.rows| == |rows| && forall i :: 0 <= i < |rows| ==> r.rows[i] == ToReportRow(rows[i])
  {
    if !Authorized(staffs, user, dto.salonId) then ReportRefused(Forbidden)
    else if dto.from.None? then ReportRefused(BadRequest(BadFrom))
    else if dto.to.None? then ReportRefused(BadRequest(BadTo))
    else if dto.to.value < dto.from.value then ReportRefused(BadRequest(ToBeforeFrom))
    else
      ReportRows(Linq.Select(ReportAppointments(appts, dto.salonId, dto.from.value, dto.to.value), ToReportRow))
  }

  /** An element that sits at two positions occurs at least twice. */
  lemma {:induction false} TwoPositions(s: seq<Appointment>, i: nat, j: nat)
    requires i < j < |s| && s[i] == s[j]
    ensures multiset(s)[s[i]] >= 2
  {
    assert s == s[..j] + s[j..];
    assert s[i] in s[..j];
    assert s[j] in s[j..];
    assert multiset(s) == multiset(s[..j]) + multiset(s[j..]);
  }

  /** Rows with pairwise different keys each occur once. */
  lemma {:induction false} DistinctKeysOccurOnce(s: seq<Appointment>, a: Appointment)
    requires UniqueBookingKeys(s)
    ensures multiset(s)[a] <= 1
    decreases |s|
  {
    if s != [] {
      var rest := s[1..];
      assert s == [s[0]] + rest;
      assert UniqueBookingKeys(rest) by {
        forall i, j | 0 <= i < j < |rest| ensures KeyOf(rest[i]) != KeyOf(rest[j]) {
          assert rest[i] == s[i + 1] && rest[j] == s[j + 1];
        }
      }
      DistinctKeysOccurOnce(rest, a);
      if a == s[0] {
        forall k | 0 <= k < |rest| ensures rest[k] != s[0] {
          assert rest[k] == s[k + 1];
          assert KeyOf(s[0]) != KeyOf(s[k + 1]);
        }
        assert a !in rest;
      }
    }
  }

  /** Under the unique index no two report lines share date, start time and
      chair, so the report's order is strict and fully determined. */
  lemma {:induction false} ReportOrderIsStrict(appts: seq<Appointment>, salonId: int, from: Day, to: Day, i: nat, j: nat)
    requires UniqueBookingKeys(appts)
    requires i < j < |ReportAppointments(appts, salonId, from, to)|
    ensures var r := ReportAppointments(appts, salonId, from, to);
      NotAfter(r[i], r[j]) && (r[i].date, r[i].startTime, r[i].chairNo) != (r[j].date, r[j].startTime, r[j].chairNo)
  {
    var r := ReportAppointments(appts, salonId, from, to);
    assert r[i] in r && r[j] in r;
    if (r[i].date, r[i].startTime, r[i].chairNo) == (r[j].date, r[j].startTime, r[j].chairNo) {
      SameKeySameRow(appts, r[i], r[j]);
      TwoPositions(r, i, j);
      DistinctKeysOccurOnce(appts, r[i]);
      assert false;
    }
  }
}
