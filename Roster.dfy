/**
 * The roster data model: designers, each with dated schedules, each with
 * time slots; and the seed roster used before the shared document is read
 * and to create that document when it does not exist yet.
 */
module Roster {

  /** One bookable time of day, "HH:MM", and whether it is already taken. */
  datatype TimeSlot = TimeSlot(val: string, isFull: bool)

  /**
   * One open day of a designer. `date` ("M/D") and `day` (a weekday name)
   * are display fields derived from `fullDate` ("YYYY-MM-DD"); all three
   * are "" while no date is chosen.
   */
  datatype Schedule = Schedule(id: int, fullDate: string, date: string, day: string, times: seq<TimeSlot>)

  datatype Designer = Designer(id: string, name: string, location: string, schedules: seq<Schedule>)

  /** The date fields agree: `date` and `day` are empty exactly when `fullDate` is. */
  predicate DerivedInSync(s: Schedule)
  {
    (s.date == "" <==> s.fullDate == "") && (s.day == "" <==> s.fullDate == "")
  }

  /** The seed roster: one designer "d1" with three dated days. */
  function InitialDesigners(): (r: seq<Designer>)
    ensures |r| == 1 && r[0].id == "d1" && |r[0].schedules| == 3
    ensures forall s :: s in r[0].schedules ==> s.fullDate != "" && DerivedInSync(s)
  {
    [
    Designer("d1", "魚魚", "北車店 15樓", [
      Schedule(1, "2026-03-12", "3/12", "四", [
        TimeSlot("11:00", false), TimeSlot("13:00", true),
        TimeSlot("15:00", false), TimeSlot("17:00", false)]),
      Schedule(2, "2026-03-13", "3/13", "五", [
        TimeSlot("13:00", false), TimeSlot("15:00", true), TimeSlot("19:00", false)]),
      Schedule(3, "2026-03-14", "3/14", "六", [
        TimeSlot("11:00", false), TimeSlot("15:00", false),
        TimeSlot("17:00", false), TimeSlot("19:00", false)])
    ])
    ]
  }
}
