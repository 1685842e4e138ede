/**
 * Schedule handlers of the roster editor, on one designer's list of
 * schedules: add a day with the next id, remove a day, change one field,
 * set or clear the date.
 */
module Schedules {
  import opened Roster
  import Slots
  import Decimal

  predicate UniqueIds(ss: seq<Schedule>)
  {
    forall i, j :: 0 <= i < j < |ss| ==> ss[i].id != ss[j].id
  }

  /** Every day of a designer keeps its date fields in sync and its slots sorted and distinct. */
  predicate WellFormedSchedules(ss: seq<Schedule>)
  {
    UniqueIds(ss) && forall s :: s in ss ==> DerivedInSync(s) && Slots.WellFormedTimes(s.times)
  }

  // ---------------------------------------------------------------------------
  // Adding a day.

  /** `Math.max` over the ids of a non-empty list. */
  function MaxId(ss: seq<Schedule>): (m: int)
    requires ss != []
    ensures forall s :: s in ss ==> s.id <= m
    ensures exists s :: s in ss && s.id == m
  {
    if |ss| == 1 then ss[0].id
    else
      var m := MaxId(ss[1..]);
      assert forall s :: s in ss ==> s == ss[0] || s in ss[1..];
      if ss[0].id >= m then ss[0].id else m
  }

  /** The id `handleAddSchedule` gives a new day: one more than the largest id, or 1. */
  function NextScheduleId(ss: seq<Schedule>): (r: int)
    ensures forall s :: s in ss ==> s.id < r
    ensures ss == [] ==> r == 1
    ensures ss != [] ==> exists s :: s in ss && s.id == r - 1
  {
    if ss == [] then 1 else MaxId(ss) + 1
  }

  function EmptySchedule(id: int): Schedule
  {
    Schedule(id, "", "", "", [])
  }

  /** `handleAddSchedule`'s new list: the old days, then an empty day with a new id. */
  function AppendSchedule(ss: seq<Schedule>): (r: seq<Schedule>)
    ensures |r| == |ss| + 1 && r[..|ss|] == ss
    ensures r[|ss|].fullDate == "" && r[|ss|].date == "" && r[|ss|].day == "" && r[|ss|].times == []
    ensures r[|ss|].id == NextScheduleId(ss)
    ensures forall s :: s in ss ==> s.id < r[|ss|].id
  {
    ss + [EmptySchedule(NextScheduleId(ss))]
  }

  lemma AppendScheduleKeepsWellFormed(ss: seq<Schedule>)
    requires WellFormedSchedules(ss)
    ensures WellFormedSchedules(AppendSchedule(ss))
  {
  }

  /**
   * Ids are not reserved: once the day with the largest id is deleted, the
   * next day gets an id no larger than the deleted one, and exactly that id
   * when another day holds the id just below it.
   */
  lemma ScheduleIdReused(ss: seq<Schedule>)
    requires ss != [] && MaxId(ss) >= 1
    ensures NextScheduleId(RemoveSchedule(ss, MaxId(ss))) <= MaxId(ss)
    ensures (exists s :: s in ss && s.id == MaxId(ss) - 1) ==>
      NextScheduleId(RemoveSchedule(ss, MaxId(ss))) == MaxId(ss)
  {
    var m := MaxId(ss);
    var rest := RemoveSchedule(ss, m);
    if rest != [] {
      var k := MaxId(rest);
      assert k < m;
      if exists s :: s in ss && s.id == m - 1 {
        var s :| s in ss && s.id == m - 1;
        assert s in rest;
      }
    }
  }

  // ---------------------------------------------------------------------------
  // Removing a day.

  /** `handleRemoveSchedule`'s new list: every day whose id is not `id`, in order. */
  function RemoveSchedule(ss: seq<Schedule>, id: int): (r: seq<Schedule>)
    ensures |r| <= |ss|
    ensures forall s :: s in r <==> s in ss && s.id != id
  {
    if ss == [] then []
    else (if ss[0].id != id then [ss[0]] else []) + RemoveSchedule(ss[1..], id)
  }

  /** Removal keeps the relative order of the days it keeps. */
  lemma {:induction false} RemoveScheduleConcat(a: seq<Schedule>, b: seq<Schedule>, id: int)
    ensures RemoveSchedule(a + b, id) == RemoveSchedule(a, id) + RemoveSchedule(b, id)
  {
    if a == [] {
      assert a + b == b;
    } else {
      assert (a + b)[1..] == a[1..] + b;
      RemoveScheduleConcat(a[1..], b, id);
    }
  }

  /** With distinct ids exactly one day goes when its id is present. */
  lemma {:induction false} RemoveScheduleRemovesOne(ss: seq<Schedule>, id: int)
    requires UniqueIds(ss)
    requires exists s :: s in ss && s.id == id
    ensures |RemoveSchedule(ss, id)| == |ss| - 1
  {
    if ss[0].id == id {
      RemoveScheduleAbsent(ss[1..], id);
    } else {
      var s :| s in ss && s.id == id;
      assert s in ss[1..];
      RemoveScheduleRemovesOne(ss[1..], id);
    }
  }

  lemma {:induction false} RemoveScheduleAbsent(ss: seq<Schedule>, id: int)
    requires forall s :: s in ss ==> s.id != id
    ensures RemoveSchedule(ss, id) == ss
  {
    if ss != [] {
      assert ss[0] in ss;
      RemoveScheduleAbsent(ss[1..], id);
    }
  }

  lemma {:induction false} RemoveScheduleKeepsWellFormed(ss: seq<Schedule>, id: int)
    requires WellFormedSchedules(ss)
    ensures WellFormedSchedules(RemoveSchedule(ss, id))
  {
    if ss != [] {
      var rest := RemoveSchedule(ss[1..], id);
      RemoveScheduleKeepsWellFormed(ss[1..], id);
      forall k | 0 <= k < |rest| ensures ss[0].id != rest[k].id {
        assert rest[k] in rest;
        var j :| 0 <= j < |ss| - 1 && ss[1..][j] == rest[k];
        assert ss[j + 1] == rest[k];
      }
    }
  }

  // ---------------------------------------------------------------------------
  // Editing a day.

  /** The fields of a day that `handleUpdateSchedule` can set. */
  datatype ScheduleField =
    | SetFullDate(fullDate: string)
    | SetDate(date: string)
    | SetDay(day: string)
    | SetTimes(times: seq<TimeSlot>)

  /** `{ ...s, [field]: value }` */
  function WithField(s: Schedule, f: ScheduleField): (r: Schedule)
    ensures r.id == s.id
  {
    match f
    case SetFullDate(v) => s.(fullDate := v)
    case SetDate(v) => s.(date := v)
    case SetDay(v) => s.(day := v)
    case SetTimes(v) => s.(times := v)
  }

  /** `schedules.map(s => s.id === id ? edit(s) : s)` */
  function EditWhere(ss: seq<Schedule>, id: int, edit: Schedule -> Schedule): (r: seq<Schedule>)
    ensures |r| == |ss|
    ensures forall i :: 0 <= i < |ss| ==> r[i] == if ss[i].id == id then edit(ss[i]) else ss[i]
  {
    if ss == [] then []
    else [if ss[0].id == id then edit(ss[0]) else ss[0]] + EditWhere(ss[1..], id, edit)
  }

  /** `handleUpdateSchedule`'s new list: the days with that id get the field, all others are untouched. */
  function UpdateSchedule(ss: seq<Schedule>, id: int, f: ScheduleField): (r: seq<Schedule>)
    ensures |r| == |ss|
    ensures forall i :: 0 <= i < |ss| ==> r[i].id == ss[i].id
    ensures forall i :: 0 <= i < |ss| && ss[i].id != id ==> r[i] == ss[i]
    ensures forall i :: 0 <= i < |ss| && ss[i].id == id ==> r[i] == WithField(ss[i], f)
  {
    EditWhere(ss, id, s => WithField(s, f))
  }

  /** Replacing the slots of a day by well-formed slots keeps the list well-formed. */
  lemma UpdateTimesKeepsWellFormed(ss: seq<Schedule>, id: int, times: seq<TimeSlot>)
    requires WellFormedSchedules(ss) && Slots.WellFormedTimes(times)
    ensures WellFormedSchedules(UpdateSchedule(ss, id, SetTimes(times)))
  {
  }

  // ---------------------------------------------------------------------------
  // Setting the date of a day.

  /**
   * What `new Date(dateString)` yields for a date the picker produced: the
   * month (1-12), the day of the month and the weekday index (0 = Sunday).
   */
  type WeekdayIndex = i: int | 0 <= i < 7
  datatype CalendarDay = CalendarDay(month: nat, dayOfMonth: nat, weekday: WeekdayIndex)

  const WeekdayNames: seq<string> := ["日", "一", "二", "三", "四", "五", "六"]

  /** The short label `${month}/${date}`. */
  function DateLabel(month: nat, dayOfMonth: nat): (r: string)
    ensures r != []
  {
    Decimal.FromNat(month) + "/" + Decimal.FromNat(dayOfMonth)
  }

  /** The label can be read back: it splits at its only '/' into the two numbers. */
  lemma DateLabelParses(month: nat, dayOfMonth: nat)
    ensures var r, k := DateLabel(month, dayOfMonth), |Decimal.FromNat(month)|;
      k < |r| && r[k] == '/' &&
      Decimal.IsDigits(r[..k]) && Decimal.IsDigits(r[k + 1..]) &&
      Decimal.ToNat(r[..k]) == month && Decimal.ToNat(r[k + 1..]) == dayOfMonth
  {
    var m, d := Decimal.FromNat(month), Decimal.FromNat(dayOfMonth);
    SplitAtSlash(m, d);
    Decimal.ToNatFromNat(month);
    Decimal.ToNatFromNat(dayOfMonth);
  }

  lemma SplitAtSlash(m: string, d: string)
    ensures var r := m + "/" + d;
      |m| < |r| && r[|m|] == '/' && r[..|m|] == m && r[|m| + 1..] == d
  {
  }

  /**
   * `handleDateChange`'s new list. An empty string clears all three date
   * fields of the days with that id; otherwise `fullDate` becomes the string
   * and `date`, `day` are derived from the calendar day. Slots, ids and all
   * other days are untouched.
   */
  function DateChange(ss: seq<Schedule>, id: int, dateString: string, cal: CalendarDay): (r: seq<Schedule>)
    ensures |r| == |ss|
    ensures forall i :: 0 <= i < |ss| && ss[i].id != id ==> r[i] == ss[i]
    ensures forall i :: 0 <= i < |ss| && ss[i].id == id ==>
      && r[i].id == id && r[i].times == ss[i].times
      && r[i].fullDate == dateString
      && DerivedInSync(r[i])
      && (dateString != "" ==> r[i].day == WeekdayNames[cal.weekday] && r[i].date == DateLabel(cal.month, cal.dayOfMonth))
  {
    if dateString == "" then
      EditWhere(ss, id, (s: Schedule) => s.(fullDate := "", date := "", day := ""))
    else
      var shortDate := DateLabel(cal.month, cal.dayOfMonth);
      var dayName := WeekdayNames[cal.weekday];
      assert dayName != "";
      EditWhere(ss, id, (s: Schedule) => s.(fullDate := dateString, date := shortDate, day := dayName))
  }

  lemma DateChangeKeepsWellFormed(ss: seq<Schedule>, id: int, dateString: string, cal: CalendarDay)
    requires WellFormedSchedules(ss)
    ensures WellFormedSchedules(DateChange(ss, id, dateString, cal))
  {
  }
}
