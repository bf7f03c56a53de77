/**
 * The meet and media records every store hands out, the payloads the routes
 * pass in, the field defaulting shared by the stores (`||` on create, `??` on
 * update) and the date pass-through of `adjustDateForTimezone`.
 */
module MeetModel {
  import opened Wrappers
  import opened JsText

  datatype MediaType = Photo | Video

  /** A stored photo or video. `uploadedAt` is the upload instant in
      milliseconds; its ISO text is not modelled. */
  datatype MediaItem = MediaItem(
    id: string,
    kind: MediaType,
    url: string,
    thumbnail: Option<string>,
    caption: Option<string>,
    originalFilename: Option<string>,
    position: int,
    uploadedAt: int)

  /** A meet as the stores return it. `createdAt` is an instant in milliseconds. */
  datatype Meet = Meet(
    id: int,
    name: string,
    date: string,
    location: string,
    description: Option<string>,
    heightCleared: Option<string>,
    poleUsed: Option<string>,
    deepestTakeoff: Option<string>,
    place: Option<string>,
    link: Option<string>,
    driveTime: Option<string>,
    registrationStatus: string,
    isFilamMeet: bool,
    media: seq<MediaItem>,
    createdAt: int)

  /** A validated create or update payload: name, date and location are
      required strings, every other field may be null or absent (`None`). */
  datatype MeetInput = MeetInput(
    name: string,
    date: string,
    location: string,
    description: Option<string>,
    heightCleared: Option<string>,
    poleUsed: Option<string>,
    deepestTakeoff: Option<string>,
    place: Option<string>,
    link: Option<string>,
    driveTime: Option<string>,
    registrationStatus: Option<string>,
    isFilamMeet: Option<bool>)

  const DefaultRegistrationStatus: string := "not registered"

  /** `value || null` on an optional string: null, undefined and "" all become null. */
  function OrNull(value: Option<string>): (r: Option<string>)
    ensures r.None? <==> value.None? || value == Some("")
    ensures r.Some? ==> r == value && r.value != ""
  {
    if value.Some? && value.value != "" then value else None
  }

  /** `value || fallback` on an optional string. */
  function OrDefault(value: Option<string>, fallback: string): (r: string)
    ensures value.Some? && value.value != "" ==> r == value.value
    ensures value.None? || value == Some("") ==> r == fallback
  {
    if value.Some? && value.value != "" then value.value else fallback
  }

  /** No optional text field holds "" and the registration status is set:
      what the create path guarantees. */
  predicate NoBlankFields(m: Meet) {
    m.description != Some("") && m.heightCleared != Some("") && m.poleUsed != Some("") &&
    m.deepestTakeoff != Some("") && m.place != Some("") && m.link != Some("") &&
    m.driveTime != Some("") && m.registrationStatus != ""
  }

  /** The meet `createMeet` builds from a payload, with the date already adjusted. */
  function NewMeet(id: int, input: MeetInput, date: string, createdAt: int): (r: Meet)
    ensures r.id == id && r.name == input.name && r.date == date && r.location == input.location
    ensures r.media == [] && r.createdAt == createdAt
    ensures NoBlankFields(r)
    ensures input.description.Some? && input.description.value != "" ==> r.description == input.description
    ensures r.description == OrNull(input.description) && r.heightCleared == OrNull(input.heightCleared)
    ensures r.poleUsed == OrNull(input.poleUsed) && r.deepestTakeoff == OrNull(input.deepestTakeoff)
    ensures r.place == OrNull(input.place) && r.link == OrNull(input.link)
    ensures r.driveTime == OrNull(input.driveTime)
    ensures input.registrationStatus.Some? && input.registrationStatus.value != "" ==>
      r.registrationStatus == input.registrationStatus.value
    ensures input.registrationStatus.None? || input.registrationStatus == Some("") ==>
      r.registrationStatus == DefaultRegistrationStatus
    ensures r.isFilamMeet <==> input.isFilamMeet == Some(true)
  {
    Meet(id, input.name, date, input.location,
      OrNull(input.description), OrNull(input.heightCleared), OrNull(input.poleUsed),
      OrNull(input.deepestTakeoff), OrNull(input.place), OrNull(input.link),
      OrNull(input.driveTime),
      OrDefault(input.registrationStatus, DefaultRegistrationStatus),
      input.isFilamMeet.GetOr(false), [], createdAt)
  }

  /** The meet `updateMeet` stores: every optional field takes the payload's value
      unless that is null or absent; id and createdAt survive; media is given. */
  function MergeMeet(existing: Meet, update: MeetInput, date: string, media: seq<MediaItem>): (r: Meet)
    ensures r.id == existing.id && r.createdAt == existing.createdAt && r.media == media
    ensures r.name == update.name && r.date == date && r.location == update.location
    ensures r.description == (if update.description.Some? then update.description else existing.description)
    ensures r.driveTime == (if update.driveTime.Some? then update.driveTime else existing.driveTime)
    ensures r.heightCleared == (if update.heightCleared.Some? then update.heightCleared else existing.heightCleared)
    ensures r.poleUsed == (if update.poleUsed.Some? then update.poleUsed else existing.poleUsed)
    ensures r.deepestTakeoff == (if update.deepestTakeoff.Some? then update.deepestTakeoff else existing.deepestTakeoff)
    ensures r.place == (if update.place.Some? then update.place else existing.place)
    ensures r.link == (if update.link.Some? then update.link else existing.link)
    ensures r.registrationStatus ==
      (if update.registrationStatus.Some? then update.registrationStatus.value else existing.registrationStatus)
    ensures r.isFilamMeet == (if update.isFilamMeet.Some? then update.isFilamMeet.value else existing.isFilamMeet)
  {
    existing.(
      name := update.name,
      date := date,
      location := update.location,
      description := Coalesce(update.description, existing.description),
      heightCleared := Coalesce(update.heightCleared, existing.heightCleared),
      poleUsed := Coalesce(update.poleUsed, existing.poleUsed),
      deepestTakeoff := Coalesce(update.deepestTakeoff, existing.deepestTakeoff),
      place := Coalesce(update.place, existing.place),
      link := Coalesce(update.link, existing.link),
      driveTime := Coalesce(update.driveTime, existing.driveTime),
      registrationStatus := update.registrationStatus.GetOr(existing.registrationStatus),
      isFilamMeet := update.isFilamMeet.GetOr(existing.isFilamMeet),
      media := media)
  }

  /** The payload that restates a meet's own fields. */
  function InputOf(m: Meet): MeetInput {
    MeetInput(m.name, m.date, m.location, m.description, m.heightCleared, m.poleUsed,
      m.deepestTakeoff, m.place, m.link, m.driveTime, Some(m.registrationStatus), Some(m.isFilamMeet))
  }

  /** A payload that sets only the required fields leaves every optional field as it was. */
  lemma MergeWithoutOptionalsKeepsFields(existing: Meet, update: MeetInput)
    requires update.description.None? && update.heightCleared.None? && update.poleUsed.None?
    requires update.deepestTakeoff.None? && update.place.None? && update.link.None?
    requires update.driveTime.None? && update.registrationStatus.None? && update.isFilamMeet.None?
    requires update.name == existing.name && update.location == existing.location
    ensures MergeMeet(existing, update, existing.date, existing.media) == existing
  {
  }

  /** Applying the same update twice is applying it once. */
  lemma MergeIdempotent(existing: Meet, update: MeetInput, date: string, media: seq<MediaItem>)
    ensures MergeMeet(MergeMeet(existing, update, date, media), update, date, media) ==
            MergeMeet(existing, update, date, media)
  {
  }

  /** Re-submitting a meet's own fields changes nothing but its media. */
  lemma MergeOwnFieldsIsIdentity(m: Meet)
    ensures MergeMeet(m, InputOf(m), m.date, m.media) == m
  {
  }

  /** Create turns a blank optional field into null, update stores it as given:
      updating with a blank description leaves a meet the create path never builds. */
  lemma UpdateKeepsBlankText(existing: Meet, update: MeetInput)
    requires update.description == Some("")
    ensures !NoBlankFields(MergeMeet(existing, update, existing.date, existing.media))
    ensures NewMeet(existing.id, update, existing.date, existing.createdAt).description.None?
  {
  }

  // ---------------------------------------------------------------------------
  // adjustDateForTimezone

  /** `/^\d{4}-\d{2}-\d{2}$/`: four, two and two ASCII digits joined by '-'.
      Without the `m` flag `$` only matches at the very end. */
  predicate IsDayText(s: string) {
    |s| == 10 && s[4] == '-' && s[7] == '-' &&
    IsDigit(s[0]) && IsDigit(s[1]) && IsDigit(s[2]) && IsDigit(s[3]) &&
    IsDigit(s[5]) && IsDigit(s[6]) && IsDigit(s[8]) && IsDigit(s[9])
  }

  /** `adjustDateForTimezone`. `reformat` stands for
      `new Date(s).toISOString().split("T")[0]`, with `None` for an invalid date,
      on which `toISOString` throws. */
  function AdjustDateForTimezone(dateStr: string, reformat: string -> Option<string>): (r: Outcome<string>)
    ensures IsDayText(dateStr) ==> r == Returned(dateStr)
    ensures !IsDayText(dateStr) && reformat(dateStr).None? ==> r == Threw
    ensures !IsDayText(dateStr) && reformat(dateStr).Some? ==> r == Returned(reformat(dateStr).value)
  {
    if IsDayText(dateStr) then Returned(dateStr)
    else match reformat(dateStr)
      case None => Threw
      case Some(day) => Returned(day)
  }

  /** Once the result is day text, adjusting it again changes nothing. */
  lemma AdjustIdempotent(dateStr: string, reformat: string -> Option<string>)
    requires AdjustDateForTimezone(dateStr, reformat).Returned?
    requires IsDayText(AdjustDateForTimezone(dateStr, reformat).value)
    ensures AdjustDateForTimezone(AdjustDateForTimezone(dateStr, reformat).value, reformat) ==
            AdjustDateForTimezone(dateStr, reformat)
  {
  }

  /** The pattern checks only the shape, so an impossible month and day pass
      through unchanged. */
  lemma NoRangeValidation(s: string, reformat: string -> Option<string>)
    requires s == "2024-99-99"
    ensures AdjustDateForTimezone(s, reformat) == Returned(s)
  {
  }

  /** The pattern is anchored: day text followed by anything at all goes to the
      `Date` branch. */
  lemma AnchoredPattern(day: string, rest: string, reformat: string -> Option<string>)
    requires IsDayText(day) && |rest| > 0
    ensures AdjustDateForTimezone(day + rest, reformat) ==
      (if reformat(day + rest).Some? then Returned(reformat(day + rest).value) else Threw)
  {
  }
}
