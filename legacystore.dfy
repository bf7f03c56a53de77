/**
 * The older in-memory store: a map of meets filled by `createMeet`, ids from a
 * counter starting at 1, six sample meets put in by the constructor.
 */
module LegacyStore {
  import opened Wrappers

  /** A payload as this store takes it. `date` is the instant of the `Date`
      object in milliseconds since the epoch. */
  datatype LegacyInput = LegacyInput(name: string, date: int, location: string, description: Option<string>)

  /** `{...insertMeet, id}`: the payload's own fields plus the id. */
  datatype LegacyMeet = LegacyMeet(id: int, name: string, date: int, location: string, description: Option<string>)

  function WithId(input: LegacyInput, id: int): (r: LegacyMeet)
    ensures r.id == id && r.name == input.name && r.date == input.date
    ensures r.location == input.location && r.description == input.description
  {
    LegacyMeet(id, input.name, input.date, input.location, input.description)
  }

  /** The six sample meets. A date-only ISO string denotes UTC midnight of that
      day (ECMAScript, section 21.4.3.2 "Date.parse"), so `new Date("2023-11-15")`
      is 1700006400000 ms. */
  const SampleMeets: seq<LegacyInput> := [
    LegacyInput("Regional Championships", 1700006400000, "Franklin Field, Boston",
      Some("Annual regional championship meet for all divisions.")),
    LegacyInput("University Invitational", 1701734400000, "University Stadium, Chicago",
      Some("Invitational meet hosting universities from across the midwest.")),
    LegacyInput("Winter Classic", 1705708800000, "Indoor Sports Complex, Denver",
      Some("Winter indoor track and field event for high school athletes.")),
    LegacyInput("Spring Opener", 1710028800000, "Community College Track, Portland",
      Some("First outdoor meet of the spring season.")),
    LegacyInput("State Qualifier", 1714262400000, "State Athletics Park, Atlanta",
      Some("Qualifying meet for the state championships.")),
    LegacyInput("Last Year's Finals", 1655251200000, "Olympic Stadium, Los Angeles",
      Some("A past event from last year for testing."))
  ]

  class LegacyStorage {
    var meets: map<int, LegacyMeet>
    /** The keys of `meets` in insertion order. */
    var order: seq<int>
    var currentId: int

    /** Nothing is ever deleted, so the stored ids are exactly 1 .. currentId - 1,
        inserted in that order. */
    ghost predicate Valid()
      reads this
    {
      currentId >= 1 && |order| == currentId - 1 &&
      (forall i :: 0 <= i < |order| ==> order[i] == i + 1) &&
      (forall id :: id in meets <==> 1 <= id < currentId) &&
      (forall id :: id in meets ==> meets[id].id == id)
    }

    /** The constructor: an empty map, the counter at 1, then the six samples
        created in order. */
    constructor ()
      ensures Valid()
      ensures currentId == 7
      ensures order == [1, 2, 3, 4, 5, 6]
      ensures forall i :: 0 <= i < 6 ==> meets[i + 1] == WithId(SampleMeets[i], i + 1)
    {
      meets := map[];
      order := [];
      currentId := 1;
      new;
      var n := 0;
      while n < |SampleMeets|
        invariant 0 <= n <= |SampleMeets|
        invariant Valid() && currentId == n + 1
        invariant forall i :: 0 <= i < n ==> meets[i + 1] == WithId(SampleMeets[i], i + 1)
      {
        var _ := CreateMeet(SampleMeets[n]);
        n := n + 1;
      }
      assert order == [1, 2, 3, 4, 5, 6];
    }

    /** `getAllMeets`: the stored meets in insertion order, which is id order 1, 2, 3, ... */
    function GetAllMeets(): (r: seq<LegacyMeet>)
      reads this
      requires Valid()
      ensures |r| == currentId - 1
      ensures forall i :: 0 <= i < |r| ==> r[i] == meets[i + 1] && r[i].id == i + 1
    {
      var o, ms := order, meets;
      seq(|o|, i requires 0 <= i < |o| && o[i] in ms => ms[o[i]])
    }

    /** `getMeetById`: the stored meet, or nothing for an id never handed out. */
    function GetMeetById(id: int): (r: Option<LegacyMeet>)
      reads this
      requires Valid()
      ensures r.None? <==> !(1 <= id < currentId)
      ensures r.Some? ==> r.value == meets[id] && r.value.id == id
    {
      if id in meets then Some(meets[id]) else None
    }

    /** `createMeet`: the payload plus the current id, which the counter then passes. */
    method CreateMeet(input: LegacyInput) returns (r: LegacyMeet)
      requires Valid()
      modifies this
      ensures Valid()
      ensures r == WithId(input, old(currentId))
      ensures currentId == old(currentId) + 1
      ensures meets == old(meets)[old(currentId) := r] && old(currentId) !in old(meets)
      ensures order == old(order) + [old(currentId)]
    {
      var id := currentId;
      currentId := currentId + 1;
      r := WithId(input, id);
      meets := meets[id := r];
      order := order + [id];
    }
  }

  /** A fresh store holds the six samples under ids 1 to 6, in that order. */
  method SampleStoreContents() returns (all: seq<LegacyMeet>)
    ensures |all| == 6
    ensures forall i :: 0 <= i < 6 ==> all[i] == WithId(SampleMeets[i], i + 1)
  {
    var store := new LegacyStorage();
    all := store.GetAllMeets();
  }
}
