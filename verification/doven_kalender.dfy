/** `weekday_name` of doven_kalender.py: the Danish name of a weekday. */
module DovenKalender {
  import opened Outcomes

  /** Python's "list index out of range". */
  datatype IndexError = ListIndexOutOfRange

  /** The weekday names, Monday first, as `datetime.weekday()` counts. */
  const DayNames: seq<string> := ["mandag", "tirsdag", "onsdag", "torsdag", "fredag", "lørdag", "søndag"]

  /** `names[weekday_index]` with Python's list indexing: 0 to 6 count from
      Monday, -7 to -1 count back from Sunday, anything else raises. */
  function WeekdayName(weekdayIndex: int): (r: Result<string, IndexError>)
    ensures r.Ok? <==> -|DayNames| <= weekdayIndex < |DayNames|
    ensures r.Ok? ==> r.value == DayNames[weekdayIndex % |DayNames|]
    ensures r.Err? ==> r.error == ListIndexOutOfRange
  {
    if 0 <= weekdayIndex < |DayNames| then Ok(DayNames[weekdayIndex])
    else if -|DayNames| <= weekdayIndex < 0 then Ok(DayNames[weekdayIndex + |DayNames|])
    else Err(ListIndexOutOfRange)
  }

  /** The week starts on Monday (mandag) and ends on Sunday (søndag). */
  lemma WeekRunsMondayToSunday()
    ensures WeekdayName(0) == Ok("mandag")
    ensures WeekdayName(1) == Ok("tirsdag")
    ensures WeekdayName(2) == Ok("onsdag")
    ensures WeekdayName(3) == Ok("torsdag")
    ensures WeekdayName(4) == Ok("fredag")
    ensures WeekdayName(5) == Ok("lørdag")
    ensures WeekdayName(6) == Ok("søndag")
  {
  }

  /** Different weekdays have different names. */
  lemma WeekdayNameInjective(i: int, j: int)
    requires 0 <= i < 7 && 0 <= j < 7
    requires WeekdayName(i) == WeekdayName(j)
    ensures i == j
  {
  }

  /** A negative index names the same day as the index a week later:
      -1 is Sunday. */
  lemma NegativeIndexWraps(i: int)
    requires -7 <= i < 0
    ensures WeekdayName(i) == WeekdayName(i + 7)
  {
  }
}
