/**
 * The HTTP routes' own rules: the upload MIME whitelist, how an uploaded file
 * becomes a media input, the captions, and the media-key stripping on meet
 * payloads.
 */
module Routes {
  import opened Wrappers
  import opened JsText
  import opened MeetModel
  import opened MemStore

  /** The MIME types the upload filter accepts. */
  const AllowedMimes: seq<string> := [
    "image/jpeg", "image/jpg", "image/png", "image/gif", "image/webp",
    "video/mp4", "video/quicktime", "video/webm"
  ]

  datatype FilterVerdict = Accept | Reject(message: string)

  const InvalidTypeMessage: string := "Invalid file type. Only images and videos are allowed."

  /** The multer `fileFilter`. */
  function FileFilter(mimetype: string): (r: FilterVerdict)
    ensures r == Accept <==> mimetype in AllowedMimes
    ensures r != Accept ==> r == Reject(InvalidTypeMessage)
  {
    if mimetype in AllowedMimes then Accept else Reject(InvalidTypeMessage)
  }

  /** The media type of an upload: a video iff the MIME type starts with "video/". */
  function UploadKind(mimetype: string): (r: MediaType)
    ensures r == Video <==> StartsWith(mimetype, "video/")
  {
    if StartsWith(mimetype, "video/") then Video else Photo
  }

  /** Every accepted type is an image or a video type, and exactly the last
      three are videos. */
  lemma AcceptedKinds(mimetype: string)
    requires FileFilter(mimetype) == Accept
    ensures UploadKind(mimetype) == Video <==> mimetype in ["video/mp4", "video/quicktime", "video/webm"]
    ensures StartsWith(mimetype, "image/") || StartsWith(mimetype, "video/")
  {
    var k :| 0 <= k < |AllowedMimes| && AllowedMimes[k] == mimetype;
    if k < 5 {
      assert mimetype[..6] == "image/";
      assert mimetype[..6] != "video/";
    } else {
      assert mimetype[..6] == "video/";
    }
  }

  /** A request body value: a string, null or undefined (also an array hole),
      or something else (an object, a number). */
  datatype BodyValue = StringValue(s: string) | NullValue | OtherValue

  /** The `caption` field of an upload request. */
  datatype CaptionField = NoCaption | OneCaption(s: string) | CaptionArray(items: seq<BodyValue>) | OtherCaption

  /** The caption list: an array as it is, a string as a one-element list,
      anything else as an empty list. */
  function CaptionList(field: CaptionField): (r: seq<BodyValue>)
    ensures field.CaptionArray? ==> r == field.items
    ensures field.OneCaption? ==> r == [StringValue(field.s)]
    ensures field.NoCaption? || field.OtherCaption? ==> r == []
  {
    match field
    case CaptionArray(items) => items
    case OneCaption(s) => [StringValue(s)]
    case _ => []
  }

  /** `list[i]` as `??` sees it: none past the end or where the entry is null
      or undefined. */
  function At(list: seq<BodyValue>, i: nat): (r: Option<BodyValue>)
    ensures r.Some? <==> i < |list| && !list[i].NullValue?
    ensures r.Some? ==> r.value == list[i]
  {
    if i < |list| && !list[i].NullValue? then Some(list[i]) else None
  }

  /** Entry `i` is a non-empty string. */
  predicate NonEmptyText(list: seq<BodyValue>, i: nat) {
    i < |list| && list[i].StringValue? && list[i].s != ""
  }

  /** The caption of file `index`: its own entry unless that is missing, null or
      undefined, else the first one; a value that is not a string or is empty
      gives none; anything else is trimmed. */
  function UploadCaption(captions: seq<BodyValue>, index: nat): (r: Option<string>)
    ensures NonEmptyText(captions, index) ==> r == Some(Trim(captions[index].s))
    ensures index < |captions| && !captions[index].NullValue? && !NonEmptyText(captions, index) ==> r.None?
    ensures (index >= |captions| || captions[index].NullValue?) && NonEmptyText(captions, 0) ==>
      r == Some(Trim(captions[0].s))
    ensures (index >= |captions| || captions[index].NullValue?) && !NonEmptyText(captions, 0) ==> r.None?
  {
    var raw: Option<BodyValue> := Coalesce(At(captions, index), At(captions, 0));
    match raw
    case Some(StringValue(s)) => if s != "" then Some(Trim(s)) else None
    case _ => None
  }

  /** An uploaded file as multer describes it. */
  datatype UploadedFile = UploadedFile(mimetype: string, filename: string, originalname: string)

  /** The media input built for file `index`. `now` is the instant `new Date()`
      reads for it. */
  function MediaInput(file: UploadedFile, captions: seq<BodyValue>, index: nat, now: int): (r: NewMedia)
    ensures r.kind == UploadKind(file.mimetype) && r.url == "/uploads/" + file.filename
    ensures r.caption == UploadCaption(captions, index)
    ensures r.thumbnail.None? && r.originalFilename == Some(file.originalname) && r.uploadedAt == Some(now)
  {
    NewMedia(UploadKind(file.mimetype), "/uploads/" + file.filename, None,
             UploadCaption(captions, index), Some(file.originalname), Some(now))
  }

  /** The inputs for all files, in upload order. */
  function MediaInputs(files: seq<UploadedFile>, field: CaptionField, nows: seq<int>): (r: seq<NewMedia>)
    requires |nows| == |files|
    ensures |r| == |files|
    ensures forall i :: 0 <= i < |files| ==> r[i] == MediaInput(files[i], CaptionList(field), i, nows[i])
  {
    seq(|files|, i requires 0 <= i < |files| => MediaInput(files[i], CaptionList(field), i, nows[i]))
  }

  /** A single caption string labels every file of the upload. */
  lemma SingleCaptionForAll(files: seq<UploadedFile>, s: string, nows: seq<int>)
    requires |nows| == |files| && s != ""
    ensures forall i :: 0 <= i < |files| ==> MediaInputs(files, OneCaption(s), nows)[i].caption == Some(Trim(s))
  {
    var captions := CaptionList(OneCaption(s));
    assert captions == [StringValue(s)] && NonEmptyText(captions, 0);
    forall i | 0 <= i < |files|
      ensures MediaInputs(files, OneCaption(s), nows)[i].caption == Some(Trim(s))
    {
      assert UploadCaption(captions, i) == Some(Trim(s));
    }
  }

  /** The PATCH caption. `None` stands for an absent field, which leaves the
      caption alone; blank text clears it to null; anything else is trimmed. */
  function PatchCaption(caption: Option<string>): (r: Patch<Option<string>>)
    ensures r.Keep? <==> caption.None?
    ensures caption.Some? && Trim(caption.value) == "" ==> r == Set(None)
    ensures caption.Some? && Trim(caption.value) != "" ==> r == Set(Some(Trim(caption.value)))
  {
    match caption
    case None => Keep
    case Some(s) => if Trim(s) == "" then Set(None) else Set(Some(Trim(s)))
  }

  /** A whitespace-only caption is stored as "" on upload but cleared to null
      by PATCH. */
  lemma BlankCaptionDiffers(s: string)
    requires s != "" && forall i :: 0 <= i < |s| ==> IsSpace(s[i])
    ensures UploadCaption([StringValue(s)], 0) == Some("")
    ensures PatchCaption(Some(s)) == Set(None)
  {
    TrimEmptyIffBlank(s);
  }

  /** Re-submitting a caption PATCH stored changes nothing. */
  lemma PatchCaptionStable(s: string)
    requires PatchCaption(Some(s)).Set? && PatchCaption(Some(s)).value.Some?
    ensures PatchCaption(PatchCaption(Some(s)).value) == PatchCaption(Some(s))
  {
    TrimIdempotent(s);
  }

  /** The body copy for POST and PUT: every key but "media", unchanged. */
  function WithoutMedia<V>(payload: map<string, V>): (r: map<string, V>)
    ensures "media" !in r
    ensures forall k :: k in r <==> k in payload && k != "media"
    ensures forall k :: k in r ==> r[k] == payload[k]
  {
    payload - {"media"}
  }
}
