/**
 * The pure parts of the Postgres store: turning the `media` payload and a
 * table row into the shared records, the column values written by create and
 * update, the positions given to appended media, and the SET clause of a
 * media metadata update. Queries are recorded as values, never run.
 */
module PgStore {
  import opened Wrappers
  import opened JsText
  import opened MeetModel

  // ---------------------------------------------------------------------------
  // toMediaItems

  /** A `Date` instant as the driver hands it over (`None`: an invalid date),
      a text to give to `new Date`, or nothing (null / undefined). */
  datatype RawDate = NoDate | DateObject(instant: Option<int>) | DateText(text: string)

  /** The raw id: a number, a text, or anything else. */
  datatype RawId = NoId | NumId(n: int) | StrId(s: string)

  /** One truthy element of the payload. A truthy element that is not an object
      has every field absent. */
  datatype RawItem = RawItem(
    id: RawId,
    kind: Option<string>,
    url: Option<string>,
    thumbnail: Option<string>,
    caption: Option<string>,
    originalFilename: Option<string>,
    position: Option<int>,
    uploadedAt: RawDate)

  /** An element of the payload: falsy (null, false, 0, "") or an item. */
  datatype RawElem = Falsy | Item(item: RawItem)

  /** The `media` payload: falsy, a single value that is not an array, or an array. */
  datatype RawMedia = Missing | One(elem: RawElem) | Many(elems: seq<RawElem>)

  /** `Array.isArray(media) ? media : [media]` for a truthy payload. */
  function Elements(media: RawMedia): (r: seq<RawElem>)
    ensures media.Missing? ==> r == []
    ensures media.One? ==> r == [media.elem]
    ensures media.Many? ==> r == media.elems
  {
    match media
    case Missing => []
    case One(e) => [e]
    case Many(es) => es
  }

  /** `.filter(item => !!item)`: the items, in order, without the falsy elements. */
  function KeepTruthy(es: seq<RawElem>): (r: seq<RawItem>)
    ensures forall x :: x in r <==> Item(x) in es
    ensures |r| <= |es|
  {
    if |es| == 0 then []
    else if es[0].Falsy? then KeepTruthy(es[1..])
    else [es[0].item] + KeepTruthy(es[1..])
  }

  lemma {:induction false} KeepTruthyAppend(a: seq<RawElem>, b: seq<RawElem>)
    ensures KeepTruthy(a + b) == KeepTruthy(a) + KeepTruthy(b)
  {
    if |a| == 0 {
      assert a + b == b;
    } else {
      assert (a + b)[1..] == a[1..] + b;
      KeepTruthyAppend(a[1..], b);
    }
  }

  /** `String(id)` for a number or text id, and the index otherwise. */
  function IdOf(id: RawId, index: nat): (r: string)
    ensures id.NumId? ==> r == IntText(id.n)
    ensures id.StrId? ==> r == id.s
    ensures id.NoId? ==> r == IntText(index)
  {
    match id
    case NumId(n) => IntText(n)
    case StrId(s) => s
    case NoId => IntText(index)
  }

  /** The upload instant: a `Date` as it is, a truthy text through `new Date`
      (`parse`, `None` for an invalid date), otherwise the clock. `toISOString`
      throws on an invalid date. */
  function UploadedAtOf(value: RawDate, now: int, parse: string -> Option<int>): (r: Outcome<int>)
    ensures value.NoDate? || value == DateText("") ==> r == Returned(now)
    ensures value.DateObject? ==> (r.Threw? <==> value.instant.None?)
    ensures value.DateObject? && value.instant.Some? ==> r == Returned(value.instant.value)
    ensures value.DateText? && value.text != "" ==>
      r == (if parse(value.text).Some? then Returned(parse(value.text).value) else Threw)
  {
    match value
    case NoDate => Returned(now)
    case DateObject(instant) => if instant.Some? then Returned(instant.value) else Threw
    case DateText(text) =>
      if text == "" then Returned(now)
      else if parse(text).Some? then Returned(parse(text).value) else Threw
  }

  /** The item built from the element at `index` of the truthy elements. */
  function NormalizeItem(item: RawItem, index: nat, now: int, parse: string -> Option<int>): (r: Outcome<MediaItem>)
    ensures r.Threw? <==> UploadedAtOf(item.uploadedAt, now, parse).Threw?
    ensures r.Returned? ==>
      r.value.id == IdOf(item.id, index) &&
      (r.value.kind == Video <==> item.kind == Some("video")) &&
      r.value.url == item.url.GetOr("") &&
      r.value.thumbnail == item.thumbnail && r.value.caption == item.caption &&
      r.value.originalFilename == item.originalFilename &&
      r.value.position == item.position.GetOr(index) &&
      Returned(r.value.uploadedAt) == UploadedAtOf(item.uploadedAt, now, parse)
  {
    match UploadedAtOf(item.uploadedAt, now, parse)
    case Threw => Threw
    case Returned(at) =>
      Returned(MediaItem(
        IdOf(item.id, index),
        if item.kind == Some("video") then Video else Photo,
        item.url.GetOr(""),
        item.thumbnail, item.caption, item.originalFilename,
        item.position.GetOr(index),
        at))
  }

  /** The `.map` over the truthy items from `from` on; `clock(i)` is the clock
      read for item `i`. Throws as soon as one item throws. */
  function NormalizeFrom(items: seq<RawItem>, from: nat, clock: nat -> int, parse: string -> Option<int>): (r: Outcome<seq<MediaItem>>)
    requires from <= |items|
    ensures r.Returned? ==> |r.value| == |items| - from
    decreases |items| - from
  {
    if from == |items| then Returned([])
    else match NormalizeItem(items[from], from, clock(from), parse)
      case Threw => Threw
      case Returned(m) =>
        match NormalizeFrom(items, from + 1, clock, parse)
        case Threw => Threw
        case Returned(rest) => Returned([m] + rest)
  }

  /** When the map returns, item i - from comes from element i with index i. */
  lemma {:induction false} NormalizeFromItems(items: seq<RawItem>, from: nat, clock: nat -> int, parse: string -> Option<int>)
    requires from <= |items|
    requires NormalizeFrom(items, from, clock, parse).Returned?
    ensures forall i :: from <= i < |items| ==>
      NormalizeItem(items[i], i, clock(i), parse) == Returned(NormalizeFrom(items, from, clock, parse).value[i - from])
    decreases |items| - from
  {
    if from < |items| {
      NormalizeFromItems(items, from + 1, clock, parse);
      var r := NormalizeFrom(items, from, clock, parse).value;
      var rest := NormalizeFrom(items, from + 1, clock, parse).value;
      assert r == [NormalizeItem(items[from], from, clock(from), parse).value] + rest;
      forall i | from < i < |items|
        ensures NormalizeItem(items[i], i, clock(i), parse) == Returned(r[i - from])
      {
        var k := i - (from + 1);
        assert r[k + 1] == rest[k];
        assert NormalizeItem(items[i], i, clock(i), parse) == Returned(rest[k]);
      }
    }
  }

  /** The map throws exactly when some item throws. */
  lemma {:induction false} NormalizeFromThrows(items: seq<RawItem>, from: nat, clock: nat -> int, parse: string -> Option<int>)
    requires from <= |items|
    ensures NormalizeFrom(items, from, clock, parse).Threw? <==>
      exists i :: from <= i < |items| && NormalizeItem(items[i], i, clock(i), parse).Threw?
    decreases |items| - from
  {
    if from < |items| {
      NormalizeFromThrows(items, from + 1, clock, parse);
      var first := NormalizeItem(items[from], from, clock(from), parse);
      if first.Threw? {
        assert NormalizeFrom(items, from, clock, parse).Threw?;
      } else {
        assert NormalizeFrom(items, from, clock, parse).Threw? == NormalizeFrom(items, from + 1, clock, parse).Threw?;
        if i :| from <= i < |items| && NormalizeItem(items[i], i, clock(i), parse).Threw? {
          assert i != from;
        }
      }
    }
  }

  /** `.filter(item => item.url.length > 0)`, order kept. */
  function WithUrl(ms: seq<MediaItem>): (r: seq<MediaItem>)
    ensures forall m :: m in r <==> m in ms && m.url != ""
    ensures |r| <= |ms|
  {
    if |ms| == 0 then []
    else if ms[0].url == "" then WithUrl(ms[1..])
    else [ms[0]] + WithUrl(ms[1..])
  }

  /** `toMediaItems`. */
  function ToMediaItems(media: RawMedia, clock: nat -> int, parse: string -> Option<int>): (r: Outcome<seq<MediaItem>>)
    ensures media.Missing? ==> r == Returned([])
    ensures r.Returned? ==> forall m :: m in r.value ==> m.url != ""
  {
    match NormalizeFrom(KeepTruthy(Elements(media)), 0, clock, parse)
    case Threw => Threw
    case Returned(ms) => Returned(WithUrl(ms))
  }

  /** A single non-array payload is read as a one-element array. */
  lemma SingleIsWrapped(e: RawElem, clock: nat -> int, parse: string -> Option<int>)
    ensures ToMediaItems(One(e), clock, parse) == ToMediaItems(Many([e]), clock, parse)
  {
  }

  /** Falsy elements are dropped before the indices are counted: inserting one
      anywhere changes nothing. */
  lemma FalsyElementsIgnored(a: seq<RawElem>, b: seq<RawElem>, clock: nat -> int, parse: string -> Option<int>)
    ensures ToMediaItems(Many(a + [Falsy] + b), clock, parse) == ToMediaItems(Many(a + b), clock, parse)
  {
    KeepTruthySkipsFalsy(a, b);
    assert Elements(Many(a + [Falsy] + b)) == a + [Falsy] + b;
  }

  lemma KeepTruthySkipsFalsy(a: seq<RawElem>, b: seq<RawElem>)
    ensures KeepTruthy(a + [Falsy] + b) == KeepTruthy(a + b)
  {
    KeepTruthyAppend(a + [Falsy], b);
    KeepTruthyAppend(a, [Falsy]);
    KeepTruthyAppend(a, b);
    assert KeepTruthy([Falsy]) == KeepTruthy([]) by {
      assert [Falsy][1..] == [];
    }
  }

  /** The url filter runs after the indices are fixed: when the first item has
      no url, the second keeps index 1 as its id and position. */
  lemma UrlFilterLeavesGaps(first: RawItem, second: RawItem, clock: nat -> int, parse: string -> Option<int>)
    requires first.url.None? && first.uploadedAt.NoDate?
    requires second.url.Some? && second.url.value != "" && second.uploadedAt.NoDate?
    requires second.id.NoId? && second.position.None?
    ensures ToMediaItems(Many([Item(first), Item(second)]), clock, parse).Returned?
    ensures var r := ToMediaItems(Many([Item(first), Item(second)]), clock, parse).value;
      |r| == 1 && r[0].position == 1 && r[0].id == IntText(1)
  {
    var items := KeepTruthy([Item(first), Item(second)]);
    assert items == [first, second] by {
      assert [Item(first), Item(second)][1..] == [Item(second)];
    }
    var n := NormalizeFrom(items, 0, clock, parse);
    NormalizeFromThrows(items, 0, clock, parse);
    assert forall i :: 0 <= i < |items| ==> items[i].uploadedAt.NoDate?;
    assert n.Returned? && |n.value| == 2;
    NormalizeFromItems(items, 0, clock, parse);
    assert n.value[0].url == "";
    assert n.value[1].position == 1 && n.value[1].id == IntText(1);
    assert WithUrl(n.value) == WithUrl(n.value[1..]) == [n.value[1]] by {
      assert n.value[1..][1..] == [];
    }
  }

  // ---------------------------------------------------------------------------
  // mapRowToMeet

  /** The `date` column: a `Date`, some other value turned into text, or null. */
  datatype RowDate = DateValue(instant: int) | DateString(text: string) | NullDate

  /** A row of the `meets` table, with its `media` payload. */
  datatype Row = Row(
    id: int,
    name: string,
    date: RowDate,
    location: string,
    description: Option<string>,
    heightCleared: Option<string>,
    poleUsed: Option<string>,
    deepestTakeoff: Option<string>,
    place: Option<string>,
    link: Option<string>,
    driveTime: Option<string>,
    registrationStatus: Option<string>,
    isFilamMeet: Option<bool>,
    media: RawMedia,
    createdAt: int)

  /** `s.split("T")[0]`: the text before the first 'T'. */
  function BeforeT(s: string): (r: string)
    ensures |r| <= |s| && r == s[..|r|] && 'T' !in r
    ensures |r| < |s| ==> s[|r|] == 'T'
    ensures 'T' !in s ==> r == s
  {
    if |s| == 0 || s[0] == 'T' then "" else [s[0]] + BeforeT(s[1..])
  }

  /** A day followed by a time keeps just the day. */
  lemma BeforeTOfDayAndTime(day: string, rest: string)
    requires IsDayText(day)
    ensures BeforeT(day + "T" + rest) == day
  {
    var s := day + "T" + rest;
    var r := BeforeT(s);
    assert 'T' !in day;
    assert s[|day|] == 'T';
    assert r == s[..|day|] == day;
  }

  /** The day text of the `date` column; `isoText` stands for `toISOString`. */
  function RowDay(date: RowDate, isoText: int -> string): (r: string)
    ensures 'T' !in r
    ensures date.NullDate? ==> r == ""
    ensures date.DateString? && 'T' !in date.text ==> r == date.text
  {
    match date
    case DateValue(t) => BeforeT(isoText(t))
    case DateString(text) => BeforeT(text)
    case NullDate => BeforeT("")
  }

  /** `mapRowToMeet`: the columns under their field names, the day text of the
      date, the two defaults, and the media payload read by `toMediaItems`. */
  function MapRowToMeet(row: Row, isoText: int -> string, clock: nat -> int, parse: string -> Option<int>): (r: Outcome<Meet>)
    ensures r.Threw? <==> ToMediaItems(row.media, clock, parse).Threw?
    ensures r.Returned? ==>
      r.value.id == row.id && r.value.name == row.name && r.value.location == row.location &&
      r.value.date == RowDay(row.date, isoText) &&
      r.value.description == row.description && r.value.driveTime == row.driveTime &&
      r.value.heightCleared == row.heightCleared && r.value.poleUsed == row.poleUsed &&
      r.value.deepestTakeoff == row.deepestTakeoff && r.value.place == row.place &&
      r.value.link == row.link &&
      r.value.registrationStatus == row.registrationStatus.GetOr(DefaultRegistrationStatus) &&
      r.value.isFilamMeet == row.isFilamMeet.GetOr(false) &&
      r.value.media == ToMediaItems(row.media, clock, parse).value &&
      r.value.createdAt == row.createdAt
  {
    match ToMediaItems(row.media, clock, parse)
    case Threw => Threw
    case Returned(media) =>
      Returned(Meet(row.id, row.name, RowDay(row.date, isoText), row.location,
        row.description, row.heightCleared, row.poleUsed, row.deepestTakeoff,
        row.place, row.link, row.driveTime,
        row.registrationStatus.GetOr(DefaultRegistrationStatus),
        row.isFilamMeet.GetOr(false), media, row.createdAt))
  }

  /** A row whose date is day text plus a time maps to that day. */
  lemma RowDateKeepsDay(row: Row, day: string, rest: string, isoText: int -> string, clock: nat -> int, parse: string -> Option<int>)
    requires IsDayText(day) && row.date == DateString(day + "T" + rest)
    requires ToMediaItems(row.media, clock, parse).Returned?
    ensures MapRowToMeet(row, isoText, clock, parse).Returned?
    ensures MapRowToMeet(row, isoText, clock, parse).value.date == day
  {
    BeforeTOfDayAndTime(day, rest);
  }

  // ---------------------------------------------------------------------------
  // Column values written by createMeet and updateMeet

  /** The twelve values bound to $1 .. $12, in column order. */
  datatype MeetColumns = MeetColumns(
    name: string,
    date: string,
    location: string,
    description: Option<string>,
    heightCleared: Option<string>,
    poleUsed: Option<string>,
    deepestTakeoff: Option<string>,
    place: Option<string>,
    link: Option<string>,
    driveTime: Option<string>,
    registrationStatus: string,
    isFilamMeet: bool)

  function ColumnsOf(m: Meet): MeetColumns {
    MeetColumns(m.name, m.date, m.location, m.description, m.heightCleared, m.poleUsed,
      m.deepestTakeoff, m.place, m.link, m.driveTime, m.registrationStatus, m.isFilamMeet)
  }

  /** The INSERT values: blank optional text becomes null (`||`). */
  function CreateColumns(input: MeetInput, date: string): (r: MeetColumns)
    ensures r.name == input.name && r.date == date && r.location == input.location
    ensures r.description.None? <==> input.description.None? || input.description == Some("")
    ensures r.link.None? <==> input.link.None? || input.link == Some("")
    ensures r.description == OrNull(input.description) && r.heightCleared == OrNull(input.heightCleared)
    ensures r.poleUsed == OrNull(input.poleUsed) && r.deepestTakeoff == OrNull(input.deepestTakeoff)
    ensures r.place == OrNull(input.place) && r.link == OrNull(input.link)
    ensures r.driveTime == OrNull(input.driveTime)
    ensures r.registrationStatus == OrDefault(input.registrationStatus, DefaultRegistrationStatus)
    ensures r.registrationStatus != ""
    ensures r.isFilamMeet == input.isFilamMeet.GetOr(false)
  {
    MeetColumns(input.name, date, input.location,
      OrNull(input.description), OrNull(input.heightCleared), OrNull(input.poleUsed),
      OrNull(input.deepestTakeoff), OrNull(input.place), OrNull(input.link),
      OrNull(input.driveTime),
      OrDefault(input.registrationStatus, DefaultRegistrationStatus),
      input.isFilamMeet.GetOr(false))
  }

  /** The UPDATE values: the payload's value unless null or absent (`??`). */
  function UpdateColumns(existing: Meet, update: MeetInput, date: string): (r: MeetColumns)
    ensures r.name == update.name && r.date == date && r.location == update.location
    ensures update.description.Some? ==> r.description == update.description
    ensures update.description.None? ==> r.description == existing.description
    ensures r.heightCleared == (if update.heightCleared.Some? then update.heightCleared else existing.heightCleared)
    ensures r.poleUsed == (if update.poleUsed.Some? then update.poleUsed else existing.poleUsed)
    ensures r.deepestTakeoff == (if update.deepestTakeoff.Some? then update.deepestTakeoff else existing.deepestTakeoff)
    ensures r.place == (if update.place.Some? then update.place else existing.place)
    ensures r.link == (if update.link.Some? then update.link else existing.link)
    ensures r.driveTime == (if update.driveTime.Some? then update.driveTime else existing.driveTime)
    ensures r.registrationStatus ==
      (if update.registrationStatus.Some? then update.registrationStatus.value else existing.registrationStatus)
    ensures r.isFilamMeet == (if update.isFilamMeet.Some? then update.isFilamMeet.value else existing.isFilamMeet)
  {
    MeetColumns(update.name, date, update.location,
      Coalesce(update.description, existing.description),
      Coalesce(update.heightCleared, existing.heightCleared),
      Coalesce(update.poleUsed, existing.poleUsed),
      Coalesce(update.deepestTakeoff, existing.deepestTakeoff),
      Coalesce(update.place, existing.place),
      Coalesce(update.link, existing.link),
      Coalesce(update.driveTime, existing.driveTime),
      update.registrationStatus.GetOr(existing.registrationStatus),
      update.isFilamMeet.GetOr(existing.isFilamMeet))
  }

  /** The database store writes exactly the fields the in-memory store builds on create. */
  lemma CreateAgreesWithMemory(id: int, input: MeetInput, date: string, createdAt: int)
    ensures CreateColumns(input, date) == ColumnsOf(NewMeet(id, input, date, createdAt))
  {
  }

  /** ... and on update. */
  lemma UpdateAgreesWithMemory(existing: Meet, update: MeetInput, date: string, media: seq<MediaItem>)
    ensures UpdateColumns(existing, update, date) == ColumnsOf(MergeMeet(existing, update, date, media))
  {
  }

  // ---------------------------------------------------------------------------
  // addMediaItems

  /** A recorded `INSERT INTO meet_media` with its bound values. */
  datatype MediaInsert = MediaInsert(
    meetId: int,
    kind: MediaType,
    url: string,
    thumbnail: Option<string>,
    caption: Option<string>,
    originalFilename: Option<string>,
    position: int,
    uploadedAt: int)

  /** An upload as `addMediaItems` takes it. */
  datatype Upload = Upload(
    kind: MediaType,
    url: string,
    thumbnail: Option<string>,
    caption: Option<string>,
    originalFilename: Option<string>,
    uploadedAt: Option<int>)

  function InsertOf(meetId: int, item: Upload, position: int, now: int): MediaInsert {
    MediaInsert(meetId, item.kind, item.url, item.thumbnail, item.caption, item.originalFilename,
      position, item.uploadedAt.GetOr(now))
  }

  /** The inserts `addMediaItems` issues, given the `max_position` the first
      query returned (`None` when there is no row). An empty list issues no
      query at all. `nows[i]` is the clock read for upload i. */
  method PlanMediaInserts(meetId: int, items: seq<Upload>, maxPosition: Option<int>, nows: seq<int>)
    returns (inserts: seq<MediaInsert>)
    requires |nows| == |items|
    ensures |inserts| == |items|
    ensures forall k :: 0 <= k < |items| ==>
      inserts[k] == InsertOf(meetId, items[k], maxPosition.GetOr(-1) + k + 1, nows[k])
  {
    inserts := [];
    if |items| == 0 {
      return;
    }
    var position := maxPosition.GetOr(-1);
    var n := 0;
    while n < |items|
      invariant 0 <= n <= |items| && |inserts| == n
      invariant position == maxPosition.GetOr(-1) + n
      invariant forall k :: 0 <= k < n ==>
        inserts[k] == InsertOf(meetId, items[k], maxPosition.GetOr(-1) + k + 1, nows[k])
    {
      position := position + 1;
      inserts := inserts + [InsertOf(meetId, items[n], position, nows[n])];
      n := n + 1;
    }
  }

  /** Positions of a plan: each one past the previous, the first one past the
      old maximum (0 for a meet with no media). */
  lemma PlannedPositions(meetId: int, items: seq<Upload>, maxPosition: Option<int>, nows: seq<int>, inserts: seq<MediaInsert>)
    requires |nows| == |items| && |inserts| == |items|
    requires forall k :: 0 <= k < |items| ==>
      inserts[k] == InsertOf(meetId, items[k], maxPosition.GetOr(-1) + k + 1, nows[k])
    ensures |inserts| > 0 && maxPosition.None? ==> inserts[0].position == 0
    ensures forall k :: 0 <= k < |inserts| ==> inserts[k].position > maxPosition.GetOr(-1)
    ensures forall k :: 0 < k < |inserts| ==> inserts[k].position == inserts[k - 1].position + 1
  {
  }

  // ---------------------------------------------------------------------------
  // updateMediaItem

  /** A value bound to a placeholder. */
  datatype SqlValue = TextValue(text: Option<string>) | IntValue(n: int)

  /** A metadata update: caption absent, or given and possibly null; position absent or given. */
  datatype MetadataUpdate = MetadataUpdate(caption: Option<Option<string>>, position: Option<int>)

  /** What `updateMediaItem` does: nothing for a missing item, a plain re-read
      when no field is given, or one UPDATE. */
  datatype MediaUpdatePlan =
    | NotFound
    | NothingToSet
    | RunUpdate(assignments: seq<string>, whereClause: string, values: seq<SqlValue>)

  /** `SET` text of one assignment. */
  function Assignment(column: string, placeholder: nat): string {
    column + " = $" + IntText(placeholder)
  }

  /** The columns a metadata update sets, in order. */
  function ColumnsSet(data: MetadataUpdate): seq<string> {
    (if data.caption.Some? then ["caption"] else []) + (if data.position.Some? then ["position"] else [])
  }

  /** The assignments for the given columns, placeholders numbered from $1. */
  function Numbered(columns: seq<string>): (r: seq<string>)
    ensures |r| == |columns|
    ensures forall j :: 0 <= j < |r| ==> r[j] == Assignment(columns[j], j + 1)
  {
    seq(|columns|, j requires 0 <= j < |columns| => Assignment(columns[j], j + 1))
  }

  lemma NumberedSnoc(columns: seq<string>, column: string)
    ensures Numbered(columns + [column]) == Numbered(columns) + [Assignment(column, |columns| + 1)]
  {
    assert forall j :: 0 <= j < |columns| ==> (columns + [column])[j] == columns[j];
  }

  /** The values a metadata update binds, in the same order. */
  function ValuesSet(data: MetadataUpdate): seq<SqlValue> {
    (if data.caption.Some? then [TextValue(data.caption.value)] else []) +
    (if data.position.Some? then [IntValue(data.position.value)] else [])
  }

  /** The SET clause and bound values of `updateMediaItem`; `found` is whether
      the first query returned a row. */
  method PlanMediaUpdate(meetId: int, mediaId: int, found: bool, data: MetadataUpdate) returns (plan: MediaUpdatePlan)
    ensures !found ==> plan == NotFound
    ensures found && data.caption.None? && data.position.None? ==> plan == NothingToSet
    ensures found && (data.caption.Some? || data.position.Some?) ==>
      var k := |ColumnsSet(data)|;
      plan.RunUpdate? &&
      plan.assignments == Numbered(ColumnsSet(data)) &&
      plan.values == ValuesSet(data) + [IntValue(mediaId), IntValue(meetId)] &&
      plan.whereClause == "id = $" + IntText(k + 1) + " AND meet_id = $" + IntText(k + 2)
  {
    if !found {
      return NotFound;
    }
    var fields, values := SetClause(data);
    if |fields| == 0 {
      return NothingToSet;
    }
    var k := |fields|;
    values := values + [IntValue(mediaId), IntValue(meetId)];
    plan := RunUpdate(fields, "id = $" + IntText(k + 1) + " AND meet_id = $" + IntText(k + 2), values);
  }

  /** The assignments and values `updateMediaItem` collects, caption first. */
  method SetClause(data: MetadataUpdate) returns (fields: seq<string>, values: seq<SqlValue>)
    ensures fields == Numbered(ColumnsSet(data)) && values == ValuesSet(data)
  {
    fields, values := [], [];
    ghost var columns: seq<string> := [];
    if data.caption.Some? {
      NumberedSnoc(columns, "caption");
      fields := fields + [Assignment("caption", |fields| + 1)];
      values := values + [TextValue(data.caption.value)];
      columns := columns + ["caption"];
    }
    assert fields == Numbered(columns);
    if data.position.Some? {
      NumberedSnoc(columns, "position");
      fields := fields + [Assignment("position", |fields| + 1)];
      values := values + [IntValue(data.position.value)];
      columns := columns + ["position"];
    }
    assert columns == ColumnsSet(data);
  }

  /** Placeholder j + 1 of the SET clause binds the j-th given value, and the
      two placeholders of the WHERE clause bind the media id and the meet id. */
  lemma PlaceholdersBindTheirValues(data: MetadataUpdate, mediaId: int, meetId: int)
    ensures |ColumnsSet(data)| == |ValuesSet(data)|
    ensures var vs := ValuesSet(data) + [IntValue(mediaId), IntValue(meetId)];
      var k := |ColumnsSet(data)|;
      vs[k] == IntValue(mediaId) && vs[k + 1] == IntValue(meetId) &&
      (forall j :: 0 <= j < k ==> (ColumnsSet(data)[j] == "caption" <==> vs[j].TextValue?))
  {
  }
}
