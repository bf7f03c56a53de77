/**
 * The meet page: the past test, the day-difference label and the Past /
 * Upcoming badge.
 */
module MeetDetails {
  import opened Wrappers
  import opened JsText
  import Home
  import opened Countdown

  /** `getDayDifference` on its own. An invalid date makes the difference NaN,
      which is neither past nor 0, so the function returns "NaN days left". The
      page never renders that text: the same render formats the date with
      date-fns `format`, which throws on an invalid date. */
  function DayDifference(date: string, construct: string -> Option<int>, today: int): (r: string)
    ensures |r| > 0
  {
    match Home.ParseDate(date, construct)
    case None => "NaN days left"
    case Some(d) =>
      var n := DaysUntil(d, today);
      if Home.IsPastDate(date, construct, today) then IntText(n) + DayWord(n) + " ago"
      else if n == 0 then "Today"
      else IntText(n) + DayWord(n) + " left"
  }

  predicate EndsWith(s: string, suffix: string) {
    |suffix| <= |s| && s[|s| - |suffix|..] == suffix
  }

  /** The label says "ago" exactly for a past meet, and then the count is at
      least one. */
  lemma AgoIffPast(date: string, construct: string -> Option<int>, today: int)
    ensures EndsWith(DayDifference(date, construct, today), " ago") <==> Home.IsPastDate(date, construct, today)
    ensures Home.IsPastDate(date, construct, today) ==>
      DaysUntil(Home.ParseDate(date, construct).value, today) >= 1
  {
    var r := DayDifference(date, construct, today);
    if !Home.IsPastDate(date, construct, today) {
      assert r[|r| - 1] != 'o';
    }
  }

  /** "Today" appears exactly when the meet's instant is today's midnight. */
  lemma TodayIffSameInstant(date: string, construct: string -> Option<int>, today: int)
    ensures DayDifference(date, construct, today) == "Today" <==> Home.ParseDate(date, construct) == Some(today)
  {
    var r := DayDifference(date, construct, today);
    if Home.ParseDate(date, construct) != Some(today) {
      assert r[|r| - 1] != 'y';
    }
  }

  /** A meet dated later today-plus-one day shows "1 day left": singular only
      for a count of exactly one. */
  lemma OneDayLeft(date: string, construct: string -> Option<int>, today: int)
    requires Home.ParseDate(date, construct).Some?
    requires today < Home.ParseDate(date, construct).value <= today + MsPerDay
    ensures DayDifference(date, construct, today) == "1 day left"
  {
    assert DaysUntil(Home.ParseDate(date, construct).value, today) == 1;
    assert IntText(1) == "1";
  }

  /** The badge: "Past" exactly when the meet is past. */
  function Status(date: string, construct: string -> Option<int>, today: int): (r: string)
    ensures r == "Past" || r == "Upcoming"
    ensures Home.ParseDate(date, construct).None? ==> r == "Upcoming"
    ensures Home.ParseDate(date, construct) == Some(today) ==> r == "Upcoming"
  {
    if Home.IsPastDate(date, construct, today) then "Past" else "Upcoming"
  }

  /** The badge and the label agree: "Past" goes with an "ago" label. */
  lemma StatusMatchesLabel(date: string, construct: string -> Option<int>, today: int)
    ensures Status(date, construct, today) == "Past" <==> EndsWith(DayDifference(date, construct, today), " ago")
  {
    AgoIffPast(date, construct, today);
  }
}
