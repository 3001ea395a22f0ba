/**
 * Day navigation (src/lib/dayNav.ts): days are "YYYY-MM-DD" strings compared
 * with JavaScript's string operators, and no day after today may be selected.
 * "Today" comes from the host clock in the source; here it is a parameter.
 */
module DayNav {
  import opened JsStrings

  /** `clampDayToToday(d)`: the day itself, or today when `d` is later. */
  function ClampDayToToday(d: string, today: string): (r: string)
    ensures LessOrEqual(d, today) ==> r == d
    ensures !LessOrEqual(d, today) ==> r == today
    ensures LessOrEqual(r, today)
  {
    LessIrreflexive(today);
    if LessOrEqual(d, today) then d else today
  }

  /** `canGoNextDay(day)`: there is a later day that is not after today. */
  predicate CanGoNextDay(day: string, today: string) {
    Less(day, today)
  }

  /** Clamping a clamped day changes nothing. */
  lemma ClampIdempotent(d: string, today: string)
    ensures ClampDayToToday(ClampDayToToday(d, today), today) == ClampDayToToday(d, today)
  {
  }

  /** From a clamped day at or after today there is no next day. */
  lemma {:induction false} NoNextDayFromTodayOrLater(d: string, today: string)
    requires LessOrEqual(today, d)
    ensures !CanGoNextDay(ClampDayToToday(d, today), today)
  {
    LessTrichotomy(d, today);
    LessIrreflexive(today);
  }

  /** Navigation forward is possible exactly from days strictly before today. */
  lemma {:induction false} CanGoNextDayIff(day: string, today: string)
    ensures CanGoNextDay(day, today) <==> LessOrEqual(day, today) && day != today
  {
    LessTrichotomy(day, today);
  }
}
