/**
 * The schedule page: reading a meet's date, the past test, the filter tabs and
 * their sort orders, and the choice of the meet highlighted as next.
 */
module Home {
  import opened Wrappers
  import opened MeetModel
  import opened Sorting

  datatype FilterType = Filam | Upcoming | Past | All

  /** `parseDate`. `construct` stands for `new Date(text).getTime()`, with `None`
      for an invalid date. Day text gets a local-midnight time appended before
      it reaches the constructor. */
  function ParseDate(date: string, construct: string -> Option<int>): (r: Option<int>)
    ensures IsDayText(date) ==> r == construct(date + "T00:00:00")
    ensures !IsDayText(date) ==> r == construct(date)
  {
    construct(if IsDayText(date) then date + "T00:00:00" else date)
  }

  /** `isPastDate`: strictly before `today`, the instant of local midnight. An
      invalid date compares false and so is never past. */
  predicate IsPastDate(date: string, construct: string -> Option<int>, today: int) {
    var d := ParseDate(date, construct);
    d.Some? && d.value < today
  }

  /** A meet's date as the sort comparators read it. */
  function DateKey(construct: string -> Option<int>): Meet -> Option<int> {
    (m: Meet) => ParseDate(m.date, construct)
  }

  /** The test each non-FilAm tab applies. */
  predicate Keeps(filter: FilterType, m: Meet, construct: string -> Option<int>, today: int) {
    match filter
    case Upcoming => !IsPastDate(m.date, construct, today)
    case Past => IsPastDate(m.date, construct, today)
    case _ => true
  }

  function KeepFor(filter: FilterType, construct: string -> Option<int>, today: int): Meet -> bool {
    (m: Meet) => Keeps(filter, m, construct, today)
  }

  /** The list a non-FilAm tab shows: the kept meets, newest first under "past",
      oldest first otherwise. */
  function Shown(filter: FilterType, meets: seq<Meet>, construct: string -> Option<int>, today: int): (r: seq<Meet>)
    ensures |r| <= |meets|
    ensures forall m :: m in r <==> m in meets && Keeps(filter, m, construct, today)
  {
    var kept := Filter(meets, KeepFor(filter, construct, today));
    SortKeepsMembers(kept, DateKey(construct), filter == Past);
    Sort(kept, DateKey(construct), filter == Past)
  }

  /** `upcomingMeets`: the meets that are not past, oldest first. */
  function UpcomingMeets(meets: seq<Meet>, construct: string -> Option<int>, today: int): (r: seq<Meet>)
    ensures forall m :: m in r <==> m in meets && !IsPastDate(m.date, construct, today)
  {
    Shown(Upcoming, meets, construct, today)
  }

  /** `nextUpcomingMeetId`: the id at the head of the upcoming list. */
  function NextUpcomingMeetId(meets: seq<Meet>, construct: string -> Option<int>, today: int): (r: Option<int>)
    ensures r.None? <==> forall m :: m in meets ==> IsPastDate(m.date, construct, today)
    ensures r.Some? ==> exists m :: m in meets && m.id == r.value && !IsPastDate(m.date, construct, today)
  {
    var up := UpcomingMeets(meets, construct, today);
    if |up| > 0 then
      assert up[0] in up;
      Some(up[0].id)
    else
      None
  }

  /** With every date valid, each tab's list is in its promised order. */
  lemma {:induction false} ShownInOrder(filter: FilterType, meets: seq<Meet>, construct: string -> Option<int>, today: int)
    requires forall m :: m in meets ==> ParseDate(m.date, construct).Some?
    ensures var r := Shown(filter, meets, construct, today);
      forall i, j :: 0 <= i < j < |r| ==>
        ParseDate(r[i].date, construct).Some? && ParseDate(r[j].date, construct).Some? &&
        (if filter == Past then ParseDate(r[i].date, construct).value >= ParseDate(r[j].date, construct).value
         else ParseDate(r[i].date, construct).value <= ParseDate(r[j].date, construct).value)
  {
    var kept := Filter(meets, KeepFor(filter, construct, today));
    assert AllKeyed(kept, DateKey(construct)) by {
      forall i | 0 <= i < |kept| ensures DateKey(construct)(kept[i]).Some? {
        assert kept[i] in kept;
      }
    }
    SortOrdered(kept, DateKey(construct), filter == Past);
    var r := Shown(filter, meets, construct, today);
    forall i | 0 <= i < |r| ensures ParseDate(r[i].date, construct).Some? {
      assert r[i] in r;
    }
  }

  /** `m` is not past and no meet that is not past is dated before it. */
  predicate EarliestUpcoming(m: Meet, meets: seq<Meet>, construct: string -> Option<int>, today: int) {
    !IsPastDate(m.date, construct, today) && ParseDate(m.date, construct).Some? &&
    forall m' :: m' in meets && !IsPastDate(m'.date, construct, today) ==>
      ParseDate(m'.date, construct).Some? && ParseDate(m.date, construct).value <= ParseDate(m'.date, construct).value
  }

  /** With every date valid, the highlighted meet is an earliest meet that is
      not past. */
  lemma NextUpcomingIsEarliest(meets: seq<Meet>, construct: string -> Option<int>, today: int)
    requires forall m :: m in meets ==> ParseDate(m.date, construct).Some?
    requires NextUpcomingMeetId(meets, construct, today).Some?
    ensures var id := NextUpcomingMeetId(meets, construct, today).value;
      exists m :: m in meets && m.id == id && EarliestUpcoming(m, meets, construct, today)
  {
    var up := UpcomingMeets(meets, construct, today);
    ShownInOrder(Upcoming, meets, construct, today);
    var m := up[0];
    assert m in up;
    forall m' | m' in meets && !IsPastDate(m'.date, construct, today)
      ensures ParseDate(m.date, construct).value <= ParseDate(m'.date, construct).value
    {
      assert m' in up;
      var j :| 0 <= j < |up| && up[j] == m';
      if j > 0 {
        assert 0 < j;
      }
    }
  }

  /** `filteredMeets`. The FilAm tab sorts the module's own `filamMeets` array in
      place, oldest first, and shows it; the other tabs leave it alone. */
  method FilteredMeets(filter: FilterType, meets: seq<Meet>, filamMeets: array<Meet>,
                       construct: string -> Option<int>, today: int) returns (r: seq<Meet>)
    modifies filamMeets
    ensures filter == Filam ==> filamMeets[..] == Sort(old(filamMeets[..]), DateKey(construct), false)
    ensures filter == Filam ==> r == filamMeets[..]
    ensures filter != Filam ==> filamMeets[..] == old(filamMeets[..])
    ensures filter != Filam ==> r == Shown(filter, meets, construct, today)
  {
    if filter == Filam {
      SortInPlace(filamMeets, DateKey(construct), false);
      r := filamMeets[..];
    } else {
      r := Shown(filter, meets, construct, today);
    }
  }

  /** The props a meet card gets: edit and delete handlers, and the highlight. */
  datatype CardProps = CardProps(hasHandlers: bool, isNextUpcoming: bool)

  function CardPropsFor(meet: Meet, filter: FilterType, nextId: Option<int>): (r: CardProps)
    ensures r.hasHandlers <==> filter != Filam
    ensures r.isNextUpcoming <==> nextId == Some(meet.id) && filter != Past
  {
    CardProps(filter != Filam, nextId == Some(meet.id) && filter != Past)
  }

  /** On the "upcoming" tab the first card is the highlighted one. */
  lemma UpcomingHeadIsHighlighted(meets: seq<Meet>, construct: string -> Option<int>, today: int)
    requires |Shown(Upcoming, meets, construct, today)| > 0
    ensures CardPropsFor(Shown(Upcoming, meets, construct, today)[0], Upcoming,
                         NextUpcomingMeetId(meets, construct, today)).isNextUpcoming
  {
  }

  /** An invalid date is never past, so such a meet sits on the "upcoming" tab. */
  lemma InvalidDateIsUpcoming(m: Meet, meets: seq<Meet>, construct: string -> Option<int>, today: int)
    requires m in meets && ParseDate(m.date, construct).None?
    ensures m in UpcomingMeets(meets, construct, today)
    ensures m !in Shown(Past, meets, construct, today)
  {
  }
}
