/**
 * The countdown strip: the next meet on or after today and the whole days
 * until it.
 */
module Countdown {
  import opened Wrappers
  import opened JsText
  import opened MeetModel
  import opened Sorting
  import opened Home

  /** `1000 * 60 * 60 * 24` */
  const MsPerDay: nat := 86400000

  /** A meet the countdown may pick: its date is valid and not before today's
      midnight. `NaN >= today` is false, so an invalid date never qualifies. */
  predicate IsCandidate(m: Meet, construct: string -> Option<int>, today: int) {
    var d := ParseDate(m.date, construct);
    d.Some? && d.value >= today
  }

  function CandidateTest(construct: string -> Option<int>, today: int): Meet -> bool {
    (m: Meet) => IsCandidate(m, construct, today)
  }

  /** The candidates in input order. */
  function Candidates(meets: seq<Meet>, construct: string -> Option<int>, today: int): seq<Meet> {
    Filter(meets, CandidateTest(construct, today))
  }

  /** `nextMeet`: null for an empty list, else the head of the candidates sorted
      oldest first. */
  function NextMeet(meets: seq<Meet>, construct: string -> Option<int>, today: int): (r: Option<Meet>)
    ensures |meets| == 0 ==> r.None?
    ensures r.None? <==> forall m :: m in meets ==> !IsCandidate(m, construct, today)
    ensures r.Some? ==> r.value in meets && IsCandidate(r.value, construct, today)
  {
    if |meets| == 0 then None
    else
      var c := Candidates(meets, construct, today);
      SortKeepsMembers(c, DateKey(construct), false);
      var sorted := Sort(c, DateKey(construct), false);
      if |sorted| > 0 then
        assert sorted[0] in sorted;
        Some(sorted[0])
      else None
  }

  /** The chosen meet is dated no later than any other candidate. */
  lemma NextMeetIsEarliest(meets: seq<Meet>, construct: string -> Option<int>, today: int)
    requires NextMeet(meets, construct, today).Some?
    ensures forall m :: m in meets && IsCandidate(m, construct, today) ==>
      ParseDate(NextMeet(meets, construct, today).value.date, construct).value <= ParseDate(m.date, construct).value
  {
    var c := Candidates(meets, construct, today);
    var sorted := Sort(c, DateKey(construct), false);
    assert AllKeyed(c, DateKey(construct)) by {
      forall i | 0 <= i < |c| ensures DateKey(construct)(c[i]).Some? {
        assert CandidateTest(construct, today)(c[i]);
      }
    }
    SortOrdered(c, DateKey(construct), false);
    SortKeepsMembers(c, DateKey(construct), false);
    forall m | m in meets && IsCandidate(m, construct, today)
      ensures ParseDate(sorted[0].date, construct).value <= ParseDate(m.date, construct).value
    {
      var k :| 0 <= k < |meets| && meets[k] == m;
      assert m in c;
      var j :| 0 <= j < |sorted| && sorted[j] == m;
      if j > 0 {
        assert !Greater(DateKey(construct), false, sorted[0], sorted[j]);
      }
    }
  }

  /** Ties keep input order: the chosen meet is the first candidate, in the
      given order, among those sharing its date. */
  lemma NextMeetIsFirstOfItsDay(meets: seq<Meet>, construct: string -> Option<int>, today: int)
    requires NextMeet(meets, construct, today).Some?
    ensures var m := NextMeet(meets, construct, today).value;
      var sameDay := WithKey(Candidates(meets, construct, today), DateKey(construct), ParseDate(m.date, construct));
      |sameDay| > 0 && sameDay[0] == m
  {
    var c := Candidates(meets, construct, today);
    var sorted := Sort(c, DateKey(construct), false);
    var k := DateKey(construct)(sorted[0]);
    FirstWithKey(sorted, DateKey(construct), k, 0);
    SortIsStable(c, DateKey(construct), false, k);
  }

  /** `daysUntil`: `Math.ceil(Math.abs(meetDate - today) / MsPerDay)`. */
  function DaysUntil(meetDate: int, today: int): (r: nat)
    ensures var gap := if meetDate >= today then meetDate - today else today - meetDate;
      (r - 1) * MsPerDay < gap <= r * MsPerDay
    ensures r == 0 <==> meetDate == today
  {
    CeilDiv(if meetDate >= today then meetDate - today else today - meetDate, MsPerDay)
  }

  /** `day${n !== 1 ? 's' : ''}` with its leading space. */
  function DayWord(n: int): (r: string)
    ensures r == " day" <==> n == 1
    ensures r == " days" <==> n != 1
  {
    " day" + (if n != 1 then "s" else "")
  }

  /** The strip's text, or nothing rendered at all without a next meet. */
  function CountdownText(meets: seq<Meet>, construct: string -> Option<int>, today: int): (r: Option<string>)
    ensures r.None? <==> forall m :: m in meets ==> !IsCandidate(m, construct, today)
    ensures r.Some? ==> NextMeet(meets, construct, today).Some?
    ensures r.Some? ==> (var tail := " until " + NextMeet(meets, construct, today).value.name;
      |tail| <= |r.value| && r.value[|r.value| - |tail|..] == tail)
  {
    match NextMeet(meets, construct, today)
    case None => None
    case Some(m) =>
      var n := DaysUntil(ParseDate(m.date, construct).value, today);
      Some(IntText(n) + DayWord(n) + " until " + m.name)
  }

  /** A meet dated exactly today counts down as "0 days". */
  lemma MeetTodayShowsZeroDays(meets: seq<Meet>, construct: string -> Option<int>, today: int)
    requires NextMeet(meets, construct, today).Some?
    requires ParseDate(NextMeet(meets, construct, today).value.date, construct) == Some(today)
    ensures CountdownText(meets, construct, today) ==
      Some("0 days until " + NextMeet(meets, construct, today).value.name)
  {
    var m := NextMeet(meets, construct, today).value;
    assert DaysUntil(today, today) == 0;
    assert IntText(0) == "0";
    assert DayWord(0) == " days";
    assert "0" + " days" + " until " + m.name == "0 days until " + m.name;
  }

  /** On the schedule page the invalid date is upcoming and sorts first. */
  lemma InvalidDateLeadsHome(a: Meet, b: Meet, construct: string -> Option<int>, today: int)
    requires ParseDate(a.date, construct).None?
    requires ParseDate(b.date, construct).Some? && ParseDate(b.date, construct).value >= today
    ensures NextUpcomingMeetId([a, b], construct, today) == Some(a.id)
  {
    var key := DateKey(construct);
    var keep := KeepFor(Upcoming, construct, today);
    assert [a, b][..1] == [a];
    assert [a][..0] == [];
    assert Filter([a], keep) == [a];
    assert Filter([a, b], keep) == [a, b];
    assert Sort([a], key, false) == [a];
    assert !Greater(key, false, a, b);
    assert Insert([a], b, key, false) == [a, b];
    assert Sort([a, b], key, false) == [a, b];
  }

  /** The countdown drops the invalid date and picks the other meet. */
  lemma InvalidDateSkippedByCountdown(a: Meet, b: Meet, construct: string -> Option<int>, today: int)
    requires ParseDate(a.date, construct).None?
    requires ParseDate(b.date, construct).Some? && ParseDate(b.date, construct).value >= today
    ensures NextMeet([a, b], construct, today) == Some(b)
  {
    var key := DateKey(construct);
    var test := CandidateTest(construct, today);
    assert [a, b][..1] == [a];
    assert [a][..0] == [];
    assert [b][..0] == [];
    assert Filter([a], test) == [];
    assert Candidates([a, b], construct, today) == [b];
    assert Sort([b], key, false) == [b];
  }

  /** A meet with an invalid date is "upcoming" on the schedule page and, listed
      first, gets the next-meet highlight there, while the countdown skips it. */
  lemma InvalidDateSplitsNextMeet(a: Meet, b: Meet, construct: string -> Option<int>, today: int)
    requires ParseDate(a.date, construct).None?
    requires ParseDate(b.date, construct).Some? && ParseDate(b.date, construct).value >= today
    ensures NextUpcomingMeetId([a, b], construct, today) == Some(a.id)
    ensures NextMeet([a, b], construct, today) == Some(b)
  {
    InvalidDateLeadsHome(a, b, construct, today);
    InvalidDateSkippedByCountdown(a, b, construct, today);
  }
}
