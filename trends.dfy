/**
 * The trends page: which meets become chart rows, the date window, the
 * personal-best and latest points of each series, and the value formatting.
 */
module Trends {
  import opened Wrappers
  import opened JsText
  import opened MeetModel
  import opened Sorting
  import Home
  import opened Metrics

  /** A chart row. `dateValue` is the meet's instant moved to local midnight. */
  datatype TrendRow = TrendRow(
    id: int,
    name: string,
    location: string,
    dateValue: int,
    heightClearedRaw: Option<string>,
    deepestTakeoffRaw: Option<string>,
    poleUsedRaw: Option<string>)

  /** JavaScript truthiness of an optional string. */
  predicate Truthy(s: Option<string>) {
    s.Some? && s.value != ""
  }

  predicate HasMetrics(m: Meet) {
    Truthy(m.heightCleared) || Truthy(m.poleUsed) || Truthy(m.deepestTakeoff) || Truthy(m.place)
  }

  /** The per-meet step of `trendRows`. `construct` is the Date constructor as
      `parseMeetDate` feeds it, `midnightOf` is `normalizeDate` on an instant and
      `today` is today's local midnight. */
  function TrendRowOf(m: Meet, construct: string -> Option<int>, midnightOf: int -> int, today: int): (r: Option<TrendRow>)
    ensures r.Some? <==>
      Home.ParseDate(m.date, construct).Some? &&
      (midnightOf(Home.ParseDate(m.date, construct).value) < today || HasMetrics(m))
    ensures r.Some? ==> r.value.id == m.id && r.value.dateValue == midnightOf(Home.ParseDate(m.date, construct).value)
    ensures r.Some? ==> r.value.heightClearedRaw == m.heightCleared && r.value.deepestTakeoffRaw == m.deepestTakeoff
    ensures r.Some? ==> r.value.poleUsedRaw == m.poleUsed
  {
    match Home.ParseDate(m.date, construct)
    case None => None
    case Some(d) =>
      var day := midnightOf(d);
      if !(day < today) && !HasMetrics(m) then None
      else Some(TrendRow(m.id, m.name, m.location, day, m.heightCleared, m.deepestTakeoff, m.poleUsed))
  }

  /** The map step followed by the filter that drops the nulls. */
  function CollectRows(meets: seq<Meet>, construct: string -> Option<int>, midnightOf: int -> int, today: int): (r: seq<TrendRow>)
    ensures |r| <= |meets|
    ensures forall k :: 0 <= k < |meets| && TrendRowOf(meets[k], construct, midnightOf, today).Some? ==>
      TrendRowOf(meets[k], construct, midnightOf, today).value in r
    ensures forall i :: 0 <= i < |r| ==>
      exists k :: 0 <= k < |meets| && TrendRowOf(meets[k], construct, midnightOf, today) == Some(r[i])
  {
    if |meets| == 0 then []
    else
      var front := meets[..|meets| - 1];
      var rest := CollectRows(front, construct, midnightOf, today);
      var step := TrendRowOf(meets[|meets| - 1], construct, midnightOf, today);
      var r := rest + (if step.Some? then [step.value] else []);
      assert forall k :: 0 <= k < |front| ==> front[k] == meets[k];
      r
  }

  function RowKey(): TrendRow -> Option<int> {
    (row: TrendRow) => Some(row.dateValue)
  }

  /** `trendRows`: the collected rows sorted oldest first. */
  function TrendRows(meets: seq<Meet>, construct: string -> Option<int>, midnightOf: int -> int, today: int): (r: seq<TrendRow>)
    ensures forall k :: 0 <= k < |meets| && TrendRowOf(meets[k], construct, midnightOf, today).Some? ==>
      TrendRowOf(meets[k], construct, midnightOf, today).value in r
    ensures forall row :: row in r ==>
      exists k :: 0 <= k < |meets| && TrendRowOf(meets[k], construct, midnightOf, today) == Some(row)
  {
    var c := CollectRows(meets, construct, midnightOf, today);
    SortKeepsMembers(c, RowKey(), false);
    Sort(c, RowKey(), false)
  }

  predicate Ascending(rows: seq<TrendRow>) {
    forall i, j :: 0 <= i < j < |rows| ==> rows[i].dateValue <= rows[j].dateValue
  }

  /** The rows come out oldest first. */
  lemma TrendRowsAscending(meets: seq<Meet>, construct: string -> Option<int>, midnightOf: int -> int, today: int)
    ensures Ascending(TrendRows(meets, construct, midnightOf, today))
  {
    var c := CollectRows(meets, construct, midnightOf, today);
    SortOrdered(c, RowKey(), false);
    var r := TrendRows(meets, construct, midnightOf, today);
    forall i, j | 0 <= i < j < |r| ensures r[i].dateValue <= r[j].dateValue {
      assert !Greater(RowKey(), false, r[i], r[j]);
    }
  }

  /** The length of the window `rangedRows` allows: "30" gives 30 days, any
      other value but "all" gives 90. */
  function WindowDays(range: string): (r: nat)
    ensures r == 30 || r == 90
    ensures r == 30 <==> range == "30"
  {
    if range == "30" then 30 else 90
  }

  predicate InWindow(row: TrendRow, start: int, today: int) {
    start <= row.dateValue <= today
  }

  /** `rangedRows`. `shiftDays(t, n)` stands for the local calendar step
      `setDate(getDate() + n)` applied to the instant `t`. */
  function RangedRows(range: string, rows: seq<TrendRow>, today: int, shiftDays: (int, int) -> int): (r: seq<TrendRow>)
    ensures range == "all" ==> r == rows
    ensures range != "all" ==> forall row :: row in r <==>
      row in rows && InWindow(row, shiftDays(today, -(WindowDays(range) as int)), today)
  {
    if range == "all" then rows
    else
      var start := shiftDays(today, -(WindowDays(range) as int));
      var keep := (row: TrendRow) => InWindow(row, start, today);
      var r := Filter(rows, keep);
      assert forall row :: row in rows && keep(row) ==> row in r by {
        forall row | row in rows && keep(row) ensures row in r {
          var k :| 0 <= k < |rows| && rows[k] == row;
        }
      }
      r
  }

  // ---------------------------------------------------------------------------
  // Series

  /** A row with a parsed number. */
  datatype Point = Point(row: TrendRow, value: real)

  /** `series.filter(point => point.value !== null)`: the rows whose value
      parses, in order. */
  function PointsOf(rows: seq<TrendRow>, value: TrendRow -> Option<real>): (r: seq<Point>)
    ensures |r| <= |rows|
    ensures forall i :: 0 <= i < |r| ==> r[i].row in rows && value(r[i].row) == Some(r[i].value)
    ensures forall k :: 0 <= k < |rows| && value(rows[k]).Some? ==> Point(rows[k], value(rows[k]).value) in r
  {
    if |rows| == 0 then []
    else
      var front := rows[..|rows| - 1];
      var last := rows[|rows| - 1];
      var rest := PointsOf(front, value);
      assert forall k :: 0 <= k < |front| ==> front[k] == rows[k];
      assert forall i :: 0 <= i < |rest| ==> rest[i].row in rows;
      rest + (if value(last).Some? then [Point(last, value(last).value)] else [])
  }

  /** Points taken from rows in date order are in date order. */
  lemma {:induction false} PointsAscending(rows: seq<TrendRow>, value: TrendRow -> Option<real>)
    requires Ascending(rows)
    ensures forall i, j :: 0 <= i < j < |PointsOf(rows, value)| ==>
      PointsOf(rows, value)[i].row.dateValue <= PointsOf(rows, value)[j].row.dateValue
  {
    if |rows| > 0 {
      var front := rows[..|rows| - 1];
      var last := rows[|rows| - 1];
      assert Ascending(front);
      PointsAscending(front, value);
      var rest := PointsOf(front, value);
      forall i | 0 <= i < |rest| ensures rest[i].row.dateValue <= last.dateValue {
        var k :| 0 <= k < |front| && front[k] == rest[i].row;
        assert rows[k] == front[k];
      }
    }
  }

  /** The reduce behind `heightPr` and `takeoffBest`, as an index: a point
      replaces the best so far only when strictly larger, so the result is the
      first point that reaches the largest value. */
  function BestIndex(points: seq<Point>): (r: Option<nat>)
    ensures r.None? <==> |points| == 0
    ensures r.Some? ==> r.value < |points|
    ensures r.Some? ==> forall j :: 0 <= j < |points| ==> points[j].value <= points[r.value].value
    ensures r.Some? ==> forall j :: 0 <= j < r.value ==> points[j].value < points[r.value].value
  {
    if |points| == 0 then None
    else
      var front := points[..|points| - 1];
      var b := BestIndex(front);
      assert forall j :: 0 <= j < |front| ==> front[j] == points[j];
      if b.None? || points[|points| - 1].value > points[b.value].value then Some(|points| - 1)
      else b
  }

  function Best(points: seq<Point>): (r: Option<Point>)
    ensures r.None? <==> |points| == 0
  {
    match BestIndex(points)
    case None => None
    case Some(i) => Some(points[i])
  }

  /** `points.length > 0 ? points[points.length - 1] : null` */
  function Latest(points: seq<Point>): (r: Option<Point>)
    ensures r.None? <==> |points| == 0
    ensures r.Some? ==> r.value in points
  {
    if |points| == 0 then None else Some(points[|points| - 1])
  }

  predicate PointsInDateOrder(points: seq<Point>) {
    forall i, j :: 0 <= i < j < |points| ==> points[i].row.dateValue <= points[j].row.dateValue
  }

  lemma BestOfDated(points: seq<Point>)
    requires PointsInDateOrder(points) && Best(points).Some?
    ensures var b := Best(points).value;
      b in points &&
      (forall p :: p in points ==> p.value <= b.value) &&
      (forall p :: p in points && p.value == b.value ==> b.row.dateValue <= p.row.dateValue)
  {
    var i := BestIndex(points).value;
    forall p | p in points ensures p.value <= points[i].value {
      var j :| 0 <= j < |points| && points[j] == p;
    }
    forall p | p in points && p.value == points[i].value ensures points[i].row.dateValue <= p.row.dateValue {
      var j :| 0 <= j < |points| && points[j] == p;
      if j < i {
        assert points[j].value < points[i].value;
      }
    }
  }

  lemma LatestOfDated(points: seq<Point>)
    requires PointsInDateOrder(points) && |points| > 0
    ensures forall p :: p in points ==> p.row.dateValue <= points[|points| - 1].row.dateValue
  {
    forall p | p in points ensures p.row.dateValue <= points[|points| - 1].row.dateValue {
      var j :| 0 <= j < |points| && points[j] == p;
    }
  }

  /** The best point is unbeaten, and any point with the same value is dated no
      earlier than it when the rows are in date order. */
  lemma BestIsEarliestMaximum(rows: seq<TrendRow>, value: TrendRow -> Option<real>)
    requires Ascending(rows)
    requires Best(PointsOf(rows, value)).Some?
    ensures var points := PointsOf(rows, value);
      var b := Best(points).value;
      b in points &&
      (forall p :: p in points ==> p.value <= b.value) &&
      (forall p :: p in points && p.value == b.value ==> b.row.dateValue <= p.row.dateValue)
  {
    PointsAscending(rows, value);
    BestOfDated(PointsOf(rows, value));
  }

  /** The latest point is the most recent one. */
  lemma LatestIsMostRecent(rows: seq<TrendRow>, value: TrendRow -> Option<real>)
    requires Ascending(rows)
    requires Latest(PointsOf(rows, value)).Some?
    ensures forall p :: p in PointsOf(rows, value) ==>
      p.row.dateValue <= Latest(PointsOf(rows, value)).value.row.dateValue
  {
    PointsAscending(rows, value);
    LatestOfDated(PointsOf(rows, value));
  }

  function HeightValue(): TrendRow -> Option<real> {
    (row: TrendRow) => ParseHeightToMeters(row.heightClearedRaw)
  }

  function TakeoffValue(): TrendRow -> Option<real> {
    (row: TrendRow) => ParseTakeoffToFeet(row.deepestTakeoffRaw)
  }

  /** `heightPr` and `heightLatest`. */
  function HeightSummary(rows: seq<TrendRow>): (r: (Option<Point>, Option<Point>))
    ensures r.0.None? <==> r.1.None?
    ensures r.0.Some? ==> ParseHeightToMeters(r.0.value.row.heightClearedRaw) == Some(r.0.value.value)
  {
    var points := PointsOf(rows, HeightValue());
    (Best(points), Latest(points))
  }

  /** `takeoffBest` and `takeoffLatest`. */
  function TakeoffSummary(rows: seq<TrendRow>): (r: (Option<Point>, Option<Point>))
    ensures r.0.None? <==> r.1.None?
    ensures r.0.Some? ==> ParseTakeoffToFeet(r.0.value.row.deepestTakeoffRaw) == Some(r.0.value.value)
  {
    var points := PointsOf(rows, TakeoffValue());
    (Best(points), Latest(points))
  }

  // ---------------------------------------------------------------------------
  // Pole series and formatting

  datatype PoleMetric = LengthFt | RatingLbs | FlexRating

  /** `roundToHalfFoot`: `Math.round(value * 2) / 2`, the nearest half foot,
      halves rounded up. */
  function RoundToHalfFoot(value: real): (r: real)
    ensures (2.0 * r).Floor as real == 2.0 * r
    ensures r - 0.25 <= value < r + 0.25
  {
    MathRound(value * 2.0) as real / 2.0
  }

  /** The value plotted for a row under the chosen pole metric. */
  function PoleValue(metric: PoleMetric, row: TrendRow): (r: Option<real>)
    ensures metric == LengthFt ==> (r.Some? <==> ParsePole(row.poleUsedRaw).lengthFt.Some?)
    ensures metric == RatingLbs ==> r == ParsePole(row.poleUsedRaw).ratingLbs
    ensures metric == FlexRating ==> r == ParsePole(row.poleUsedRaw).flex
  {
    var pole := ParsePole(row.poleUsedRaw);
    match metric
    case LengthFt => if pole.lengthFt.Some? then Some(RoundToHalfFoot(pole.lengthFt.value)) else None
    case RatingLbs => pole.ratingLbs
    case FlexRating => pole.flex
  }

  /** A plotted length is within a quarter foot of the parsed one. */
  lemma PoleLengthNearParsed(row: TrendRow)
    requires ParsePole(row.poleUsedRaw).lengthFt.Some?
    ensures var v := ParsePole(row.poleUsedRaw).lengthFt.value;
      PoleValue(LengthFt, row).value - 0.25 <= v < PoleValue(LengthFt, row).value + 0.25
  {
  }

  /** `formatFeetInches`. `None` stands for a non-finite number. */
  function FormatFeetInches(feet: Option<int>, inches: Option<int>): (r: string)
    ensures r == "" <==> feet.None? || inches.None?
    ensures feet.Some? && inches == Some(0) ==> r == IntText(feet.value) + "'"
    ensures feet.Some? && inches.Some? && inches.value != 0 ==>
      r == IntText(feet.value) + "' " + IntText(inches.value) + "\""
  {
    if feet.None? || inches.None? then ""
    else if inches.value == 0 then IntText(feet.value) + "'"
    else IntText(feet.value) + "' " + IntText(inches.value) + "\""
  }

  /** `formatTakeoffValue`: decimal feet shown as whole feet and inches. */
  function FormatTakeoffValue(feetDecimal: Number): (r: string)
    ensures r != ""
  {
    var w := FeetDecimalToFeetInches(feetDecimal);
    FormatFeetInches(Some(w.feet), Some(w.inches))
  }

  /** `formatPoleMetricValue`. `show` stands for the default number-to-text
      conversion `${value}`. */
  function FormatPoleMetricValue(metric: PoleMetric, value: Number, show: real -> string): (r: string)
    ensures value.NonFinite? <==> r == ""
    ensures value.Finite? && metric == RatingLbs ==> r == show(value.value) + " lbs"
    ensures value.Finite? && metric == FlexRating ==> r == show(value.value) + " flex"
  {
    match value
    case NonFinite => ""
    case Finite(v) =>
      match metric
      case LengthFt => FormatTakeoffValue(Finite(RoundToHalfFoot(v)))
      case RatingLbs => show(v) + " lbs"
      case FlexRating => show(v) + " flex"
  }

  /** 6k inches are k/2 feet and 0 or 6 inches. */
  lemma SplitHalfFeet(k: nat)
    ensures SplitInches(6 * k) == WholeFeetInches(k / 2, if k % 2 == 0 then 0 else 6)
  {
    var q, r := k / 2, k % 2;
    assert k == 2 * q + r && 0 <= r < 2;
    assert 6 * k == 12 * q + 6 * r;
    assert (6 * k) / 12 == q && (6 * k) % 12 == 6 * r;
  }

  /** A half-foot value 2h = k, k >= 0, converts to k/2 feet and 0 or 6 inches. */
  lemma HalfFootParts(h: real, k: int)
    requires k >= 0 && 2.0 * h == k as real
    ensures FeetDecimalToFeetInches(Finite(h)) == WholeFeetInches(k / 2, if k % 2 == 0 then 0 else 6)
    ensures h.Floor == k / 2
    ensures h == (k / 2) as real <==> k % 2 == 0
  {
    assert h * 12.0 == (6 * k) as real;
    RoundOfInteger(6 * k);
    SplitHalfFeet(k);
    var q, r := k / 2, k % 2;
    assert k == 2 * q + r && 0 <= r < 2;
    assert h == q as real + (r as real) / 2.0;
  }

  /** A non-negative length is shown in whole feet plus either nothing or 6". */
  lemma LengthShownInHalfFeet(v: real, show: real -> string)
    requires v >= 0.0
    ensures var h := RoundToHalfFoot(v);
      var feet := h.Floor;
      FormatPoleMetricValue(LengthFt, Finite(v), show) ==
        (if h == feet as real then IntText(feet) + "'" else IntText(feet) + "' 6\"")
  {
    var h := RoundToHalfFoot(v);
    var k := (2.0 * h).Floor;
    assert 2.0 * h == k as real;
    assert k >= 0;
    HalfFootParts(h, k);
    assert FormatPoleMetricValue(LengthFt, Finite(v), show) == FormatTakeoffValue(Finite(h));
    if k % 2 != 0 {
      assert IntText(6) == "6";
    }
  }
}
