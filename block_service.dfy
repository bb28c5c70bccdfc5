/** Whether a (salon, date, start time, chair) cell is closed by a one-off
    (manual) block or by a Daily/Weekly recurring block. Time ranges are
    half-open [start, end); a block without a chair closes every chair. */
module BlockService {
  import opened Wrappers
  import opened Calendar
  import opened Entities
  import Linq

  /** ISO weekday: Monday = 1 .. Sunday = 7. */
  function ToIsoDayOfWeek(d: Day): (r: int)
    ensures 1 <= r <= 7
    ensures r == d % 7 + 1
    ensures DayOfWeek(d) == Sunday ==> r == 7
    ensures DayOfWeek(d) != Sunday ==> r == DayOfWeek(d)
  {
    var dow := DayOfWeek(d);
    if dow == 0 then 7 else dow
  }

  predicate ChairMatches(blockChair: Option<int>, chairNo: int) {
    blockChair.None? || blockChair.value == chairNo
  }

  /** The condition IsBlockedAsync puts on a manual block. */
  predicate ManualBlockCovers(b: ManualBlock, salonId: int, date: Day, startTime: TimeOfDay, chairNo: int) {
    b.isActive && b.salonId == salonId && b.date == date &&
    ChairMatches(b.chairNo, chairNo) &&
    startTime >= b.startTime && startTime < b.endTime
  }

  /** The condition IsBlockedAsync puts on a recurring block, given the date's ISO weekday. */
  predicate RecurringBlockCovers(r: RecurringBlock, salonId: int, isoDow: int, startTime: TimeOfDay, chairNo: int) {
    r.isActive && r.salonId == salonId &&
    ChairMatches(r.chairNo, chairNo) &&
    startTime >= r.startTime && startTime < r.endTime &&
    (r.kind == Daily || (r.kind == Weekly && r.dayOfWeekIso == Some(isoDow)))
  }

  /** IsBlockedAsync over the two block tables. */
  function IsBlocked(manual: seq<ManualBlock>, recurring: seq<RecurringBlock>,
                     salonId: int, date: Day, startTime: TimeOfDay, chairNo: int): (r: bool)
    ensures r <==>
      (exists i :: 0 <= i < |manual| && ManualBlockCovers(manual[i], salonId, date, startTime, chairNo)) ||
      (exists j :: 0 <= j < |recurring| &&
                   RecurringBlockCovers(recurring[j], salonId, ToIsoDayOfWeek(date), startTime, chairNo))
  {
    var isManual := Linq.Any(manual, (b: ManualBlock) => ManualBlockCovers(b, salonId, date, startTime, chairNo));
    if isManual then true
    else
      var isoDow := ToIsoDayOfWeek(date);
      Linq.Any(recurring, (r: RecurringBlock) => RecurringBlockCovers(r, salonId, isoDow, startTime, chairNo))
  }

  /** GetManualBlocksForRangeAsync: the salon's active manual blocks dated from..to. */
  function GetManualBlocksForRange(manual: seq<ManualBlock>, salonId: int, from: Day, to: Day): (r: seq<ManualBlock>)
    ensures forall b :: b in r <==> b in manual && b.isActive && b.salonId == salonId && from <= b.date <= to
  {
    Linq.Where(manual, (b: ManualBlock) => b.isActive && b.salonId == salonId && b.date >= from && b.date <= to)
  }

  /** GetRecurringBlocksAsync: the salon's active recurring blocks. */
  function GetRecurringBlocks(recurring: seq<RecurringBlock>, salonId: int): (r: seq<RecurringBlock>)
    ensures forall b :: b in r <==> b in recurring && b.isActive && b.salonId == salonId
  {
    Linq.Where(recurring, (b: RecurringBlock) => b.isActive && b.salonId == salonId)
  }

  /** A block that is inactive, or belongs to another salon, never closes a cell. */
  lemma {:induction false} IrrelevantBlocksNeverBlock(
    manual: seq<ManualBlock>, recurring: seq<RecurringBlock>, mb: ManualBlock, rb: RecurringBlock,
    salonId: int, date: Day, startTime: TimeOfDay, chairNo: int)
    requires !mb.isActive || mb.salonId != salonId
    requires !rb.isActive || rb.salonId != salonId
    ensures IsBlocked(manual + [mb], recurring + [rb], salonId, date, startTime, chairNo)
         == IsBlocked(manual, recurring, salonId, date, startTime, chairNo)
  {
    var m2, r2 := manual + [mb], recurring + [rb];
    assert forall i :: 0 <= i < |manual| ==> m2[i] == manual[i];
    assert forall j :: 0 <= j < |recurring| ==> r2[j] == recurring[j];
    assert !ManualBlockCovers(m2[|manual|], salonId, date, startTime, chairNo);
    assert !RecurringBlockCovers(r2[|recurring|], salonId, ToIsoDayOfWeek(date), startTime, chairNo);
  }

  /** A block bound to one chair never closes another chair. */
  lemma {:induction false} ChairBlockLeavesOtherChairs(
    manual: seq<ManualBlock>, recurring: seq<RecurringBlock>, mb: ManualBlock, rb: RecurringBlock,
    salonId: int, date: Day, startTime: TimeOfDay, chairNo: int)
    requires mb.chairNo.Some? && mb.chairNo.value != chairNo
    requires rb.chairNo.Some? && rb.chairNo.value != chairNo
    ensures IsBlocked(manual + [mb], recurring + [rb], salonId, date, startTime, chairNo)
         == IsBlocked(manual, recurring, salonId, date, startTime, chairNo)
  {
    var m2, r2 := manual + [mb], recurring + [rb];
    assert forall i :: 0 <= i < |manual| ==> m2[i] == manual[i];
    assert forall j :: 0 <= j < |recurring| ==> r2[j] == recurring[j];
    assert !ManualBlockCovers(m2[|manual|], salonId, date, startTime, chairNo);
    assert !RecurringBlockCovers(r2[|recurring|], salonId, ToIsoDayOfWeek(date), startTime, chairNo);
  }

  /** An active manual block without a chair closes every chair of its salon, date and range. */
  lemma AllChairsManualBlock(
    manual: seq<ManualBlock>, recurring: seq<RecurringBlock>, i: nat, startTime: TimeOfDay, chairNo: int)
    requires i < |manual| && manual[i].isActive && manual[i].chairNo.None?
    requires manual[i].startTime <= startTime < manual[i].endTime
    ensures IsBlocked(manual, recurring, manual[i].salonId, manual[i].date, startTime, chairNo)
  {
    assert ManualBlockCovers(manual[i], manual[i].salonId, manual[i].date, startTime, chairNo);
  }

  /** An active recurring block without a chair closes every chair on the days it applies to. */
  lemma AllChairsRecurringBlock(
    manual: seq<ManualBlock>, recurring: seq<RecurringBlock>, j: nat, date: Day, startTime: TimeOfDay, chairNo: int)
    requires j < |recurring| && recurring[j].isActive && recurring[j].chairNo.None?
    requires recurring[j].startTime <= startTime < recurring[j].endTime
    requires recurring[j].kind == Daily || (recurring[j].kind == Weekly && recurring[j].dayOfWeekIso == Some(ToIsoDayOfWeek(date)))
    ensures IsBlocked(manual, recurring, recurring[j].salonId, date, startTime, chairNo)
  {
    assert RecurringBlockCovers(recurring[j], recurring[j].salonId, ToIsoDayOfWeek(date), startTime, chairNo);
  }

  /** A Weekly block changes nothing on dates of another ISO weekday. */
  lemma {:induction false} WeeklyBlockOnlyOnItsDay(
    manual: seq<ManualBlock>, recurring: seq<RecurringBlock>, rb: RecurringBlock,
    salonId: int, date: Day, startTime: TimeOfDay, chairNo: int)
    requires rb.kind == Weekly && rb.dayOfWeekIso != Some(ToIsoDayOfWeek(date))
    ensures IsBlocked(manual, recurring + [rb], salonId, date, startTime, chairNo)
         == IsBlocked(manual, recurring, salonId, date, startTime, chairNo)
  {
    var r2 := recurring + [rb];
    assert forall j :: 0 <= j < |recurring| ==> r2[j] == recurring[j];
    assert !RecurringBlockCovers(r2[|recurring|], salonId, ToIsoDayOfWeek(date), startTime, chairNo);
  }

  /** A block of a type other than Daily and Weekly never closes a cell. */
  lemma {:induction false} UndefinedTypeNeverBlocks(
    manual: seq<ManualBlock>, recurring: seq<RecurringBlock>, rb: RecurringBlock,
    salonId: int, date: Day, startTime: TimeOfDay, chairNo: int)
    requires rb.kind.Undefined?
    ensures IsBlocked(manual, recurring + [rb], salonId, date, startTime, chairNo)
         == IsBlocked(manual, recurring, salonId, date, startTime, chairNo)
  {
    var r2 := recurring + [rb];
    assert forall j :: 0 <= j < |recurring| ==> r2[j] == recurring[j];
    assert !RecurringBlockCovers(r2[|recurring|], salonId, ToIsoDayOfWeek(date), startTime, chairNo);
  }
}
