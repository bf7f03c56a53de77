/**
 * The in-memory store behind the server: a map of meets keyed by id (kept in
 * insertion order, as a JavaScript `Map` is), a media list per meet and an id
 * counter.
 */
module MemStore {
  import opened Wrappers
  import opened JsText
  import opened MeetModel

  /** A media upload as the routes hand it over. */
  datatype NewMedia = NewMedia(
    kind: MediaType,
    url: string,
    thumbnail: Option<string>,
    caption: Option<string>,
    originalFilename: Option<string>,
    uploadedAt: Option<int>)

  /** An optional field of a patch: absent (`undefined`) or given, possibly as null. */
  datatype Patch<T> = Keep | Set(value: T)

  /** A media metadata update. */
  datatype MediaPatch = MediaPatch(caption: Patch<Option<string>>, position: Option<int>)

  /** `String(n)` for a numeric media id. */
  function IdText(n: int): string {
    IntText(n)
  }

  /** The id `addMediaItems` mints for the item at `index`, read at clock value `now`. */
  function MintedId(now: int, index: nat): string {
    IntText(now) + "-" + IntText(index)
  }

  /** Text with a '-' somewhere after its first character. */
  predicate DashAfterFirst(x: string) {
    |x| > 0 && '-' in x[1..]
  }

  lemma MintedIdHasDash(now: int, index: nat)
    ensures DashAfterFirst(MintedId(now, index))
  {
    var t := IntText(now);
    var x := MintedId(now, index);
    assert x[1..][|t| - 1] == x[|t|] == '-';
  }

  lemma IdTextHasNoDash(n: int)
    ensures !DashAfterFirst(IdText(n))
  {
    var t := IdText(n);
    if DashAfterFirst(t) {
      var j :| 0 <= j < |t[1..]| && t[1..][j] == '-';
      IntTextMinusOnlyFirst(n, j + 1);
      assert false;
    }
  }

  /** No minted id is the text of any integer. */
  lemma MintedIdIsNeverNumeric(now: int, index: nat, mediaId: int)
    ensures MintedId(now, index) != IdText(mediaId)
  {
    MintedIdHasDash(now, index);
    IdTextHasNoDash(mediaId);
  }

  predicate AllMinted(media: seq<MediaItem>) {
    forall k :: 0 <= k < |media| ==> DashAfterFirst(media[k].id)
  }

  lemma AppendMinted(a: seq<MediaItem>, b: seq<MediaItem>)
    requires AllMinted(a) && AllMinted(b)
    ensures AllMinted(a + b)
  {
    forall k | 0 <= k < |a + b| ensures DashAfterFirst((a + b)[k].id) {
      if k >= |a| {
        assert (a + b)[k] == b[k - |a|];
      }
    }
  }

  /** `media.findIndex(item => item.id === id)`, as an index from `from` on. */
  function FindIndexFrom(media: seq<MediaItem>, id: string, from: nat): (r: Option<nat>)
    requires from <= |media|
    ensures r.Some? ==> from <= r.value < |media| && media[r.value].id == id &&
                        forall k :: from <= k < r.value ==> media[k].id != id
    ensures r.None? ==> forall k :: from <= k < |media| ==> media[k].id != id
    decreases |media| - from
  {
    if from == |media| then None
    else if media[from].id == id then Some(from)
    else FindIndexFrom(media, id, from + 1)
  }

  /** The first index whose item has the given id. */
  function FindIndexById(media: seq<MediaItem>, id: string): (r: Option<nat>)
    ensures r.Some? ==> r.value < |media| && media[r.value].id == id &&
                        forall k :: 0 <= k < r.value ==> media[k].id != id
    ensures r.None? ==> forall k :: 0 <= k < |media| ==> media[k].id != id
  {
    FindIndexFrom(media, id, 0)
  }

  /** In a list of minted ids no numeric id is ever found. */
  lemma NumericIdNotFound(media: seq<MediaItem>, mediaId: int)
    requires AllMinted(media)
    ensures FindIndexById(media, IdText(mediaId)).None?
  {
    var r := FindIndexById(media, IdText(mediaId));
    if r.Some? {
      assert DashAfterFirst(media[r.value].id);
      IdTextHasNoDash(mediaId);
      assert false;
    }
  }

  /** The item `addMediaItems` builds from the upload at `index`: `idNow` is the
      reading of `Date.now()` for its id, `dateNow` the separate `new Date()`. */
  function MintItem(item: NewMedia, position: int, index: nat, idNow: int, dateNow: int): (r: MediaItem)
    ensures r.id == MintedId(idNow, index) && r.position == position
    ensures r.kind == item.kind && r.url == item.url
    ensures r.thumbnail == item.thumbnail && r.caption == item.caption
    ensures r.originalFilename == item.originalFilename
    ensures r.uploadedAt == item.uploadedAt.GetOr(dateNow)
  {
    MediaItem(MintedId(idNow, index), item.kind, item.url, item.thumbnail, item.caption,
      item.originalFilename, position, item.uploadedAt.GetOr(dateNow))
  }

  /** The new items of one `addMediaItems` call: two clock readings per upload,
      positions counting on from `start`. */
  function NewItems(items: seq<NewMedia>, start: int, idNows: seq<int>, dateNows: seq<int>): (r: seq<MediaItem>)
    requires |idNows| == |items| && |dateNows| == |items|
    ensures |r| == |items|
    ensures forall k :: 0 <= k < |r| ==> r[k] == MintItem(items[k], start + k, k, idNows[k], dateNows[k])
  {
    seq(|items|, k requires 0 <= k < |items| => MintItem(items[k], start + k, k, idNows[k], dateNows[k]))
  }

  lemma NewItemsAreMinted(items: seq<NewMedia>, start: int, idNows: seq<int>, dateNows: seq<int>)
    requires |idNows| == |items| && |dateNows| == |items|
    ensures AllMinted(NewItems(items, start, idNows, dateNows))
  {
    var r := NewItems(items, start, idNows, dateNows);
    forall k | 0 <= k < |r| ensures DashAfterFirst(r[k].id) {
      MintedIdHasDash(idNows[k], k);
    }
  }

  /** Every item's position is its index. */
  predicate PositionsAreIndices(media: seq<MediaItem>) {
    forall k :: 0 <= k < |media| ==> media[k].position == k
  }

  /** Appending to a list whose positions are its indices keeps them so. */
  lemma AppendKeepsPositions(media: seq<MediaItem>, items: seq<NewMedia>, idNows: seq<int>, dateNows: seq<int>)
    requires |idNows| == |items| && |dateNows| == |items| && PositionsAreIndices(media)
    ensures PositionsAreIndices(media + NewItems(items, |media|, idNows, dateNows))
  {
    var all := media + NewItems(items, |media|, idNows, dateNows);
    forall k | 0 <= k < |all| ensures all[k].position == k {
      if k >= |media| {
        assert all[k] == NewItems(items, |media|, idNows, dateNows)[k - |media|];
      }
    }
  }

  /** The item after a metadata update: caption and position change when given. */
  function Patched(item: MediaItem, data: MediaPatch): (r: MediaItem)
    ensures r.id == item.id && r.kind == item.kind && r.url == item.url
    ensures r.thumbnail == item.thumbnail && r.originalFilename == item.originalFilename
    ensures r.uploadedAt == item.uploadedAt
    ensures r.caption == (if data.caption.Set? then data.caption.value else item.caption)
    ensures r.position == (if data.position.Some? then data.position.value else item.position)
  {
    var withCaption := if data.caption.Set? then item.(caption := data.caption.value) else item;
    if data.position.Some? then withCaption.(position := data.position.value) else withCaption
  }

  /** The sequence without the element `x`. */
  function Without(s: seq<int>, x: int): (r: seq<int>)
    ensures forall y :: y in r <==> y in s && y != x
    ensures |r| <= |s|
  {
    if |s| == 0 then [] else if s[0] == x then Without(s[1..], x) else [s[0]] + Without(s[1..], x)
  }

  lemma WithoutKeepsIncreasing(s: seq<int>, x: int)
    requires forall i, j :: 0 <= i < j < |s| ==> s[i] < s[j]
    ensures forall i, j :: 0 <= i < j < |Without(s, x)| ==> Without(s, x)[i] < Without(s, x)[j]
  {
    if |s| > 0 {
      WithoutKeepsIncreasing(s[1..], x);
      var t := Without(s[1..], x);
      if s[0] != x {
        forall k | 0 <= k < |t| ensures s[0] < t[k] {
          assert t[k] in s[1..];
          var j :| 0 <= j < |s[1..]| && s[1..][j] == t[k];
          assert s[j + 1] == t[k];
        }
        var r := [s[0]] + t;
        forall i, j | 0 <= i < j < |r| ensures r[i] < r[j] {
          if i > 0 {
            assert r[i] == t[i - 1] && r[j] == t[j - 1];
          } else {
            assert r[j] == t[j - 1];
          }
        }
      }
    }
  }

  /** The six demo meets the store starts with by default. */
  const DemoMeets: seq<MeetInput> := [
    MeetInput("Regional Championships", "2023-11-15", "Franklin Field, Boston",
      Some("Annual regional championship meet for all divisions."), None, None, None, None, None, None, None, None),
    MeetInput("University Invitational", "2023-12-05", "University Stadium, Chicago",
      Some("Invitational meet hosting universities from across the midwest."), None, None, None, None, None, None, None, None),
    MeetInput("Winter Classic", "2024-01-20", "Indoor Sports Complex, Denver",
      Some("Winter indoor track and field event for high school athletes."), None, None, None, None, None, None, None, None),
    MeetInput("Spring Opener", "2024-03-10", "Community College Track, Portland",
      Some("First outdoor meet of the spring season."), None, None, None, None, None, None, None, None),
    MeetInput("State Qualifier", "2024-04-28", "State Athletics Park, Atlanta",
      Some("Qualifying meet for the state championships."), None, None, None, None, None, None, None, None),
    MeetInput("Last Year's Finals", "2022-06-15", "Olympic Stadium, Los Angeles",
      Some("A past event from last year for testing."), None, None, None, None, None, None, None, None)
  ]

  /** Every demo date is already day text, so none of them reaches the `Date` branch. */
  lemma DemoDatesAreDayText()
    ensures forall i :: 0 <= i < |DemoMeets| ==> IsDayText(DemoMeets[i].date)
  {
    assert IsDayText(DemoMeets[0].date) && IsDayText(DemoMeets[1].date) && IsDayText(DemoMeets[2].date);
    assert IsDayText(DemoMeets[3].date) && IsDayText(DemoMeets[4].date) && IsDayText(DemoMeets[5].date);
  }

  class MemStorage {
    var meets: map<int, Meet>
    /** The keys of `meets` in insertion order. */
    var order: seq<int>
    var mediaByMeet: map<int, seq<MediaItem>>
    var currentId: int

    /** Ids are handed out in increasing order and never reused; each meet is
        filed under its own id. */
    ghost predicate Valid()
      reads this
    {
      currentId >= 1 &&
      (forall i, j :: 0 <= i < j < |order| ==> order[i] < order[j]) &&
      (forall id :: id in meets <==> id in order) &&
      (forall id :: id in meets ==> meets[id].id == id && 1 <= id < currentId)
    }

    /** Every stored media id was minted by `addMediaItems`. The constructor
        establishes this and every method keeps it. */
    ghost predicate MediaIdsMinted()
      reads this
    {
      forall id :: id in mediaByMeet ==> AllMinted(mediaByMeet[id])
    }

    /** `getMediaForMeet`: the meet's media list, or [] when it has none. */
    function GetMediaForMeet(meetId: int): (r: seq<MediaItem>)
      reads this
      ensures meetId !in mediaByMeet ==> r == []
      ensures meetId in mediaByMeet ==> r == mediaByMeet[meetId]
    {
      if meetId in mediaByMeet then mediaByMeet[meetId] else []
    }

    /** `getMeetById`: the stored meet with its current media, or nothing. */
    function GetMeetById(id: int): (r: Option<Meet>)
      reads this
      ensures r.None? <==> id !in meets
      ensures r.Some? ==> r.value == meets[id].(media := GetMediaForMeet(id))
    {
      if id in meets then Some(meets[id].(media := GetMediaForMeet(id))) else None
    }

    /** `getAllMeets`: every stored meet exactly once, with its media, in
        insertion order, which is increasing id order. */
    function GetAllMeets(): (r: seq<Meet>)
      reads this
      requires Valid()
      ensures |r| == |order|
      ensures forall i :: 0 <= i < |r| ==> GetMeetById(r[i].id) == Some(r[i])
      ensures forall id :: id in meets <==> exists i :: 0 <= i < |r| && r[i].id == id
      ensures forall i, j :: 0 <= i < j < |r| ==> r[i].id < r[j].id
    {
      var o, ms, mb := order, meets, mediaByMeet;
      assert forall i :: 0 <= i < |o| ==> o[i] in o;
      var r := seq(|o|, i requires 0 <= i < |o| && o[i] in ms =>
        ms[o[i]].(media := if o[i] in mb then mb[o[i]] else []));
      assert forall i :: 0 <= i < |r| ==> r[i].id == order[i];
      assert forall id :: id in order ==> exists i :: 0 <= i < |order| && order[i] == id;
      r
    }

    /** What seeding with `seed[i]` leaves under id i + 1: its new meet, or
        nothing when the date could not be adjusted. */
    static function SeedMeet(seed: seq<MeetInput>, stamps: seq<int>, reformat: string -> Option<string>, i: nat): (r: Option<Meet>)
      requires i < |seed| == |stamps|
      ensures r.Some? <==> AdjustDateForTimezone(seed[i].date, reformat).Returned?
      ensures r.Some? ==> r.value == NewMeet(i + 1, seed[i], AdjustDateForTimezone(seed[i].date, reformat).value, stamps[i])
    {
      match AdjustDateForTimezone(seed[i].date, reformat)
      case Threw => None
      case Returned(date) => Some(NewMeet(i + 1, seed[i], date, stamps[i]))
    }

    /** The store seeded with `seed`; `stamps[i]` is the creation instant of
        the i-th seed meet. A seed whose date the `Date` branch rejects still
        uses up its id. */
    constructor (seed: seq<MeetInput>, stamps: seq<int>, reformat: string -> Option<string>)
      requires |stamps| == |seed|
      ensures Valid() && MediaIdsMinted()
      ensures currentId == |seed| + 1
      ensures forall id :: id in meets ==> 1 <= id <= |seed|
      ensures forall i :: 0 <= i < |seed| ==> GetMeetById(i + 1) == SeedMeet(seed, stamps, reformat, i)
    {
      meets := map[];
      order := [];
      mediaByMeet := map[];
      currentId := 1;
      new;
      var n := 0;
      while n < |seed|
        invariant 0 <= n <= |seed|
        invariant Valid() && MediaIdsMinted() && currentId == n + 1
        invariant forall id :: id in meets ==> 1 <= id <= n
        invariant forall id :: id in meets ==> GetMediaForMeet(id) == []
        invariant forall i :: 0 <= i < n ==> GetMeetById(i + 1) == SeedMeet(seed, stamps, reformat, i)
      {
        ghost var before, mediaBefore := meets, mediaByMeet;
        var _ := CreateMeet(seed[n], stamps[n], reformat);
        forall i | 0 <= i <= n
          ensures GetMeetById(i + 1) == SeedMeet(seed, stamps, reformat, i)
        {
          if i < n {
            assert (i + 1 in meets) == (i + 1 in before);
            assert i + 1 in meets ==> meets[i + 1] == before[i + 1] && GetMediaForMeet(i + 1) == [];
          } else if AdjustDateForTimezone(seed[n].date, reformat).Returned? {
            var m := NewMeet(n + 1, seed[n], AdjustDateForTimezone(seed[n].date, reformat).value, stamps[n]);
            assert meets[n + 1] == m && GetMediaForMeet(n + 1) == [];
            assert m.(media := []) == m;
          } else {
            assert n + 1 !in meets;
          }
        }
        n := n + 1;
      }
    }

    /** `createMeet`: takes the current id, bumps the counter, and stores the
        new meet with an empty media list. If the date cannot be adjusted the
        call throws after the counter has moved. */
    method CreateMeet(input: MeetInput, now: int, reformat: string -> Option<string>) returns (r: Outcome<Meet>)
      requires Valid()
      modifies this
      ensures Valid()
      ensures old(MediaIdsMinted()) ==> MediaIdsMinted()
      ensures currentId == old(currentId) + 1
      ensures r.Threw? <==> AdjustDateForTimezone(input.date, reformat).Threw?
      ensures r.Threw? ==> meets == old(meets) && order == old(order) && mediaByMeet == old(mediaByMeet)
      ensures r.Returned? ==>
        r.value == NewMeet(old(currentId), input, AdjustDateForTimezone(input.date, reformat).value, now) &&
        old(currentId) !in old(meets) &&
        meets == old(meets)[old(currentId) := r.value] &&
        order == old(order) + [old(currentId)] &&
        mediaByMeet == old(mediaByMeet)[old(currentId) := []]
    {
      var id := currentId;
      currentId := currentId + 1;
      var date := AdjustDateForTimezone(input.date, reformat);
      if date.Threw? {
        return Threw;
      }
      var meet := NewMeet(id, input, date.value, now);
      assert forall i :: 0 <= i < |order| ==> order[i] in order;
      assert id !in order;
      meets := meets[id := meet];
      order := order + [id];
      mediaByMeet := mediaByMeet[id := []];
      r := Returned(meet);
    }

    /** `updateMeet`: nothing for an unknown id; otherwise the merged meet replaces
        the stored one in place. The payload's date is always present, so it is
        the one adjusted. */
    method UpdateMeet(id: int, update: MeetInput, reformat: string -> Option<string>) returns (r: Outcome<Option<Meet>>)
      requires Valid()
      modifies this
      ensures Valid()
      ensures old(MediaIdsMinted()) ==> MediaIdsMinted()
      ensures currentId == old(currentId) && order == old(order) && mediaByMeet == old(mediaByMeet)
      ensures id !in old(meets) ==> r == Returned(None) && meets == old(meets)
      ensures id in old(meets) && AdjustDateForTimezone(update.date, reformat).Threw? ==>
        r == Threw && meets == old(meets)
      ensures id in old(meets) && AdjustDateForTimezone(update.date, reformat).Returned? ==>
        r == Returned(Some(MergeMeet(old(GetMeetById(id)).value, update,
               AdjustDateForTimezone(update.date, reformat).value, old(GetMediaForMeet(id))))) &&
        meets == old(meets)[id := r.value.value]
    {
      var existing := GetMeetById(id);
      if existing.None? {
        return Returned(None);
      }
      var date := AdjustDateForTimezone(update.date, reformat);
      if date.Threw? {
        return Threw;
      }
      var updated := MergeMeet(existing.value, update, date.value, GetMediaForMeet(id));
      meets := meets[id := updated];
      r := Returned(Some(updated));
    }

    /** `deleteMeet`: removes the meet and its media list; reports whether the meet existed. */
    method DeleteMeet(id: int) returns (existed: bool)
      requires Valid()
      modifies this
      ensures Valid()
      ensures old(MediaIdsMinted()) ==> MediaIdsMinted()
      ensures existed <==> id in old(meets)
      ensures meets == old(meets) - {id} && mediaByMeet == old(mediaByMeet) - {id}
      ensures order == Without(old(order), id) && currentId == old(currentId)
    {
      existed := id in meets;
      WithoutKeepsIncreasing(order, id);
      meets := meets - {id};
      mediaByMeet := mediaByMeet - {id};
      order := Without(order, id);
    }

    /** `addMediaItems`: the new items go after the existing ones, in order,
        numbered on from the old length; `idNows[i]` and `dateNows[i]` are the two
        clock readings for upload i. */
    method AddMediaItems(meetId: int, items: seq<NewMedia>, idNows: seq<int>, dateNows: seq<int>) returns (r: seq<MediaItem>)
      requires Valid() && |idNows| == |items| && |dateNows| == |items|
      modifies this
      ensures Valid()
      ensures old(MediaIdsMinted()) ==> MediaIdsMinted()
      ensures r == old(GetMediaForMeet(meetId)) + NewItems(items, |old(GetMediaForMeet(meetId))|, idNows, dateNows)
      ensures mediaByMeet == old(mediaByMeet)[meetId := r]
      ensures meets == old(meets) && order == old(order) && currentId == old(currentId)
    {
      var media := GetMediaForMeet(meetId);
      var added := NewItems(items, |media|, idNows, dateNows);
      NewItemsAreMinted(items, |media|, idNows, dateNows);
      r := media + added;
      if old(MediaIdsMinted()) {
        AppendMinted(media, added);
      }
      mediaByMeet := mediaByMeet[meetId := r];
    }

    /** `deleteMediaItem`: removes the first item whose id is `String(mediaId)`
        and returns it; with no such item nothing changes. */
    method DeleteMediaItem(meetId: int, mediaId: int) returns (removed: Option<MediaItem>, media: seq<MediaItem>)
      requires Valid()
      modifies this
      ensures Valid()
      ensures meets == old(meets) && order == old(order) && currentId == old(currentId)
      ensures old(MediaIdsMinted()) ==> MediaIdsMinted() && removed.None? && mediaByMeet == old(mediaByMeet)
      ensures FindIndexById(old(GetMediaForMeet(meetId)), IdText(mediaId)).None? ==>
        removed.None? && media == old(GetMediaForMeet(meetId)) && mediaByMeet == old(mediaByMeet)
      ensures FindIndexById(old(GetMediaForMeet(meetId)), IdText(mediaId)).Some? ==>
        var i := FindIndexById(old(GetMediaForMeet(meetId)), IdText(mediaId)).value;
        removed == Some(old(GetMediaForMeet(meetId))[i]) &&
        media == old(GetMediaForMeet(meetId))[..i] + old(GetMediaForMeet(meetId))[i + 1..] &&
        mediaByMeet == old(mediaByMeet)[meetId := media]
    {
      if MediaIdsMinted() {
        NumericMediaIdNeverFound(meetId, mediaId);
      }
      media := GetMediaForMeet(meetId);
      var index := FindIndexById(media, IdText(mediaId));
      if index.None? {
        removed := None;
        return;
      }
      var i := index.value;
      removed := Some(media[i]);
      media := media[..i] + media[i + 1..];
      mediaByMeet := mediaByMeet[meetId := media];
    }

    /** `updateMediaItem`: nothing for a missing item; otherwise only that item's
        caption and position change, and the whole list is returned. */
    method UpdateMediaItem(meetId: int, mediaId: int, data: MediaPatch) returns (r: Option<seq<MediaItem>>)
      requires Valid()
      modifies this
      ensures Valid()
      ensures meets == old(meets) && order == old(order) && currentId == old(currentId)
      ensures old(MediaIdsMinted()) ==> MediaIdsMinted() && r.None? && mediaByMeet == old(mediaByMeet)
      ensures FindIndexById(old(GetMediaForMeet(meetId)), IdText(mediaId)).None? ==>
        r.None? && mediaByMeet == old(mediaByMeet)
      ensures FindIndexById(old(GetMediaForMeet(meetId)), IdText(mediaId)).Some? ==>
        var i := FindIndexById(old(GetMediaForMeet(meetId)), IdText(mediaId)).value;
        r == Some(old(GetMediaForMeet(meetId))[i := Patched(old(GetMediaForMeet(meetId))[i], data)]) &&
        mediaByMeet == old(mediaByMeet)[meetId := r.value]
    {
      if MediaIdsMinted() {
        NumericMediaIdNeverFound(meetId, mediaId);
      }
      var media := GetMediaForMeet(meetId);
      var index := FindIndexById(media, IdText(mediaId));
      if index.None? {
        return None;
      }
      var i := index.value;
      media := media[i := Patched(media[i], data)];
      mediaByMeet := mediaByMeet[meetId := media];
      r := Some(media);
    }

    /** No minted id is the text of a number, so while every stored id is
        minted, lookups by a numeric media id never find anything. */
    lemma NumericMediaIdNeverFound(meetId: int, mediaId: int)
      requires MediaIdsMinted()
      ensures FindIndexById(GetMediaForMeet(meetId), IdText(mediaId)).None?
    {
      NumericIdNotFound(GetMediaForMeet(meetId), mediaId);
    }
  }
}
