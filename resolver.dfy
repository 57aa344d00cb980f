/** getFreeRooms: the rooms of a building that have no booking in the way of the requested
    window, each room's schedule taken from the cache or else fetched once and cached. */
module Resolver {
  import opened Wrappers
  import opened Sequences
  import opened Catalog
  import opened Schedule

  /** The scheduling service, as seen by one query: the answer it gives for a room id,
      `None` for a non-200 status, a transport error, a body that is not JSON, or a JSON
      body that is null or another falsy value. */
  type Fetcher = int -> Option<RoomJson>

  /** Where the resolver stands after some rooms: the cache, the rooms found free so far
      as `(name, id)` pairs, and the ids sent to the service, in order. */
  datatype Progress = Progress(cache: map<int, RoomJson>, freeRooms: seq<(string, int)>, requests: seq<int>)

  /** Adds the room to the result when none of its bookings is in the way. */
  function Check(p: Progress, id: int, room: RoomJson, query: Query): Progress
  {
    if HasConflict(EventsOf(room), query) then p
    else p.(freeRooms := p.freeRooms + [(room.name, id)])
  }

  /** One turn of the loop: a cached schedule is used as it is; otherwise the service is
      asked, a failed answer skips the room and a good one is cached before the check. */
  function Visit(p: Progress, room: Room, fetch: Fetcher, query: Query): Progress
  {
    if room.id in p.cache then Check(p, room.id, p.cache[room.id], query)
    else
      var requests := p.requests + [room.id];
      match fetch(room.id)
      case None => p.(requests := requests)
      case Some(json) => Check(Progress(p.cache[room.id := json], p.freeRooms, requests), room.id, json, query)
  }

  /** The loop over `rooms`, in order, starting from `cache`. */
  function Run(rooms: seq<Room>, cache: map<int, RoomJson>, fetch: Fetcher, query: Query): Progress
  {
    if rooms == [] then Progress(cache, [], [])
    else Visit(Run(rooms[..|rooms| - 1], cache, fetch, query), rooms[|rooms| - 1], fetch, query)
  }

  function RoomIds(rooms: seq<Room>): (ids: seq<int>)
    ensures |ids| == |rooms|
    ensures forall i :: 0 <= i < |rooms| ==> ids[i] == rooms[i].id
  {
    seq(|rooms|, i requires 0 <= i < |rooms| => rooms[i].id)
  }

  function FreeIds(entries: seq<(string, int)>): (ids: seq<int>)
    ensures |ids| == |entries|
    ensures forall i :: 0 <= i < |entries| ==> ids[i] == entries[i].1
  {
    seq(|entries|, i requires 0 <= i < |entries| => entries[i].1)
  }

  /** The schedule a query uses for `id` when it starts from `cache`: the cached one, or else
      the service's answer. */
  function Lookup(cache: map<int, RoomJson>, fetch: Fetcher, id: int): Option<RoomJson>
  {
    if id in cache then Some(cache[id]) else fetch(id)
  }

  /** What room `id` contributes to the answer: `(name, id)` when its schedule is available
      and nothing in it is in the way, nothing otherwise. */
  function FreeEntry(cache: map<int, RoomJson>, fetch: Fetcher, query: Query, id: int): Option<(string, int)>
  {
    match Lookup(cache, fetch, id)
    case None => None
    case Some(room) => if HasConflict(EventsOf(room), query) then None else Some((room.name, id))
  }

  function Contribution(cache: map<int, RoomJson>, fetch: Fetcher, query: Query, id: int): seq<(string, int)>
  {
    match FreeEntry(cache, fetch, query, id)
    case None => []
    case Some(entry) => [entry]
  }

  /** The answer, defined room by room without any cache updates: each room decided on its own. */
  function FreeRooms(rooms: seq<Room>, cache: map<int, RoomJson>, fetch: Fetcher, query: Query): seq<(string, int)>
  {
    if rooms == [] then []
    else FreeRooms(rooms[..|rooms| - 1], cache, fetch, query) + Contribution(cache, fetch, query, rooms[|rooms| - 1].id)
  }

  /** The cache only grows: existing entries are never replaced or removed; every entry is
      the schedule the query saw for that id; the new keys are exactly the rooms of the
      list whose fetch succeeded. */
  lemma {:induction false} RunCacheInvariant(rooms: seq<Room>, cache: map<int, RoomJson>, fetch: Fetcher, query: Query)
    ensures var p := Run(rooms, cache, fetch, query);
      && (forall k :: k in cache ==> k in p.cache && p.cache[k] == cache[k])
      && (forall k :: k in p.cache ==> Lookup(cache, fetch, k) == Some(p.cache[k]))
      && (forall k :: k in p.cache <==> k in cache || (fetch(k).Some? && k in RoomIds(rooms)))
  {
    if rooms != [] {
      var init, last := rooms[..|rooms| - 1], rooms[|rooms| - 1];
      RunCacheInvariant(init, cache, fetch, query);
      assert RoomIds(rooms) == RoomIds(init) + [last.id];
      var p0 := Run(init, cache, fetch, query);
      var p := Run(rooms, cache, fetch, query);
      if last.id in p0.cache {
        assert p.cache == p0.cache;
      } else if fetch(last.id).None? {
        assert p.cache == p0.cache;
      } else {
        assert p.cache == p0.cache[last.id := fetch(last.id).value];
      }
    }
  }

  /** The loop computes the room-by-room answer. */
  lemma {:induction false} RunMatchesFreeRooms(rooms: seq<Room>, cache: map<int, RoomJson>, fetch: Fetcher, query: Query)
    ensures Run(rooms, cache, fetch, query).freeRooms == FreeRooms(rooms, cache, fetch, query)
  {
    if rooms != [] {
      var init, last := rooms[..|rooms| - 1], rooms[|rooms| - 1];
      RunMatchesFreeRooms(init, cache, fetch, query);
      RunCacheInvariant(init, cache, fetch, query);
    }
  }

  /** The service is asked only about rooms of the list missing from the starting cache, about
      every such room, and never twice about a room it answered. */
  lemma {:induction false} RunRequests(rooms: seq<Room>, cache: map<int, RoomJson>, fetch: Fetcher, query: Query)
    ensures var p := Run(rooms, cache, fetch, query);
      && (forall k :: k in p.requests ==> k !in cache && k in RoomIds(rooms))
      && (forall k :: k in RoomIds(rooms) && k !in cache ==> k in p.requests)
      && (forall i, j :: 0 <= i < j < |p.requests| && p.requests[i] == p.requests[j] ==> fetch(p.requests[i]).None?)
  {
    if rooms != [] {
      var init, last := rooms[..|rooms| - 1], rooms[|rooms| - 1];
      RunRequests(init, cache, fetch, query);
      RunCacheInvariant(init, cache, fetch, query);
      assert RoomIds(rooms) == RoomIds(init) + [last.id];
      var p0 := Run(init, cache, fetch, query);
      var p := Run(rooms, cache, fetch, query);
      if last.id in p0.cache {
        assert p.requests == p0.requests;
      } else {
        assert p.requests == p0.requests + [last.id];
        forall i | 0 <= i < |p0.requests| && p0.requests[i] == last.id
          ensures fetch(last.id).None?
        {
          assert last.id in RoomIds(init);
        }
      }
    }
  }

  /** Membership in the answer: exactly the entries some room of the list contributes. */
  lemma {:induction false} FreeRoomsMembers(rooms: seq<Room>, cache: map<int, RoomJson>, fetch: Fetcher, query: Query, entry: (string, int))
    ensures entry in FreeRooms(rooms, cache, fetch, query) <==>
      exists i :: 0 <= i < |rooms| && FreeEntry(cache, fetch, query, rooms[i].id) == Some(entry)
  {
    if rooms != [] {
      var init, last := rooms[..|rooms| - 1], rooms[|rooms| - 1];
      FreeRoomsMembers(init, cache, fetch, query, entry);
      if exists i :: 0 <= i < |init| && FreeEntry(cache, fetch, query, init[i].id) == Some(entry) {
        var i :| 0 <= i < |init| && FreeEntry(cache, fetch, query, init[i].id) == Some(entry);
        assert rooms[i] == init[i];
      }
      if exists i :: 0 <= i < |rooms| && FreeEntry(cache, fetch, query, rooms[i].id) == Some(entry) {
        var i :| 0 <= i < |rooms| && FreeEntry(cache, fetch, query, rooms[i].id) == Some(entry);
        if i < |init| {
          assert init[i] == rooms[i];
        }
      }
    }
  }

  /** The answer follows the order of the list and names each room at most once per
      occurrence: its ids are a subsequence of the rooms' ids, so it is never longer and
      names no room outside the list. */
  lemma {:induction false} FreeRoomsInOrder(rooms: seq<Room>, cache: map<int, RoomJson>, fetch: Fetcher, query: Query)
    ensures IsSubsequence(FreeIds(FreeRooms(rooms, cache, fetch, query)), RoomIds(rooms))
    ensures |FreeRooms(rooms, cache, fetch, query)| <= |rooms|
    ensures forall id :: id in FreeIds(FreeRooms(rooms, cache, fetch, query)) ==> id in RoomIds(rooms)
  {
    var after := FreeRooms(rooms, cache, fetch, query);
    if rooms != [] {
      var init, last := rooms[..|rooms| - 1], rooms[|rooms| - 1];
      FreeRoomsInOrder(init, cache, fetch, query);
      var before := FreeRooms(init, cache, fetch, query);
      var ids, beforeIds := RoomIds(rooms), FreeIds(before);
      assert ids == RoomIds(init) + [last.id];
      assert after == before + Contribution(cache, fetch, query, last.id);
      if FreeEntry(cache, fetch, query, last.id).None? {
        assert after == before;
        SubsequenceSkip(beforeIds, RoomIds(init), last.id);
      } else {
        var entry := FreeEntry(cache, fetch, query, last.id).value;
        assert entry.1 == last.id;
        assert after == before + [entry];
        assert FreeIds(after) == beforeIds + [last.id];
        SubsequenceKeep(beforeIds, RoomIds(init), last.id);
      }
    }
    SubsequenceLength(FreeIds(after), RoomIds(rooms));
    forall id | id in FreeIds(after)
      ensures id in RoomIds(rooms)
    {
      SubsequenceMembers(FreeIds(after), RoomIds(rooms), id);
    }
  }

  /** Two caches that lead to the same schedules give the same answer. */
  lemma {:induction false} FreeRoomsDependsOnLookup(rooms: seq<Room>, c1: map<int, RoomJson>, c2: map<int, RoomJson>, fetch: Fetcher, query: Query)
    requires forall k :: Lookup(c1, fetch, k) == Lookup(c2, fetch, k)
    ensures FreeRooms(rooms, c1, fetch, query) == FreeRooms(rooms, c2, fetch, query)
  {
    if rooms != [] {
      FreeRoomsDependsOnLookup(rooms[..|rooms| - 1], c1, c2, fetch, query);
      assert FreeEntry(c1, fetch, query, rooms[|rooms| - 1].id) == FreeEntry(c2, fetch, query, rooms[|rooms| - 1].id) by {
        assert Lookup(c1, fetch, rooms[|rooms| - 1].id) == Lookup(c2, fetch, rooms[|rooms| - 1].id);
      }
    }
  }

  /** A query leaves the cache agreeing with what it saw: a later query against the same
      service answers sees the same schedule for every room. */
  lemma LookupAfterRun(rooms: seq<Room>, cache: map<int, RoomJson>, fetch: Fetcher, query: Query, k: int)
    ensures Lookup(Run(rooms, cache, fetch, query).cache, fetch, k) == Lookup(cache, fetch, k)
  {
  }

  /** Repeating a query: the same answer, the same cache, and the service is asked again
      only about rooms whose fetch failed the first time. */
  lemma RepeatedQuery(rooms: seq<Room>, cache: map<int, RoomJson>, fetch: Fetcher, query: Query)
    ensures var first := Run(rooms, cache, fetch, query);
      var second := Run(rooms, first.cache, fetch, query);
      && second.freeRooms == first.freeRooms
      && second.cache == first.cache
      && (forall k :: k in second.requests ==> fetch(k).None?)
  {
    var first := Run(rooms, cache, fetch, query);
    var second := Run(rooms, first.cache, fetch, query);
    forall k
      ensures Lookup(first.cache, fetch, k) == Lookup(cache, fetch, k)
    {
      LookupAfterRun(rooms, cache, fetch, query, k);
    }
    RunMatchesFreeRooms(rooms, cache, fetch, query);
    RunMatchesFreeRooms(rooms, first.cache, fetch, query);
    FreeRoomsDependsOnLookup(rooms, first.cache, cache, fetch, query);
    RunCacheInvariant(rooms, cache, fetch, query);
    RunCacheInvariant(rooms, first.cache, fetch, query);
    assert forall k :: k in second.cache <==> k in first.cache;
    assert forall k :: k in first.cache ==> second.cache[k] == first.cache[k];
    assert second.cache == first.cache;
    RunRequests(rooms, first.cache, fetch, query);
  }

  /** Whatever a later query asks and whatever the service answers then, it never asks again
      about a room an earlier query fetched successfully or found cached. */
  /** A room whose schedule a query obtained is judged the same by any later query for the
      same window, whatever the service answers then: its verdict comes from the cache. */
  lemma CachedVerdictStable(rooms: seq<Room>, cache: map<int, RoomJson>, fetch: Fetcher, later: Fetcher, query: Query, k: int)
    requires k in Run(rooms, cache, fetch, query).cache
    ensures FreeEntry(Run(rooms, cache, fetch, query).cache, later, query, k) == FreeEntry(cache, fetch, query, k)
  {
    RunCacheInvariant(rooms, cache, fetch, query);
  }

  /** Repeating a query against a service that may now answer differently: every room the
      first query listed as free is listed again. */
  lemma RepeatKeepsFreeRooms(rooms: seq<Room>, cache: map<int, RoomJson>, fetch: Fetcher, later: Fetcher, query: Query, entry: (string, int))
    ensures var first := Run(rooms, cache, fetch, query);
      entry in first.freeRooms ==> entry in Run(rooms, first.cache, later, query).freeRooms
  {
    var first := Run(rooms, cache, fetch, query);
    RunMatchesFreeRooms(rooms, cache, fetch, query);
    RunMatchesFreeRooms(rooms, first.cache, later, query);
    FreeRoomsMembers(rooms, cache, fetch, query, entry);
    FreeRoomsMembers(rooms, first.cache, later, query, entry);
    if entry in first.freeRooms {
      var i :| 0 <= i < |rooms| && FreeEntry(cache, fetch, query, rooms[i].id) == Some(entry);
      RunCacheInvariant(rooms, cache, fetch, query);
      assert rooms[i].id in RoomIds(rooms);
      CachedVerdictStable(rooms, cache, fetch, later, query, rooms[i].id);
    }
  }

  lemma LaterQueryUsesCache(rooms: seq<Room>, cache: map<int, RoomJson>, fetch: Fetcher, query: Query,
                            laterRooms: seq<Room>, laterFetch: Fetcher, laterQuery: Query, k: int)
    requires k in cache || (k in RoomIds(rooms) && fetch(k).Some?)
    ensures k !in Run(laterRooms, Run(rooms, cache, fetch, query).cache, laterFetch, laterQuery).requests
  {
    RunCacheInvariant(rooms, cache, fetch, query);
    RunRequests(laterRooms, Run(rooms, cache, fetch, query).cache, laterFetch, laterQuery);
  }

  /** The rooms of the list whose id is not `id`, in order. */
  function WithoutId(rooms: seq<Room>, id: int): (rest: seq<Room>)
    ensures forall room :: room in rest <==> room in rooms && room.id != id
  {
    if rooms == [] then []
    else
      var init, last := rooms[..|rooms| - 1], rooms[|rooms| - 1];
      assert rooms == init + [last];
      WithoutId(init, id) + if last.id == id then [] else [last]
  }

  /** A failed fetch only costs its own room: with the service failing for `id` alone,
      the answer is the one for the other rooms. */
  lemma {:induction false} FetchFailureIsolated(rooms: seq<Room>, cache: map<int, RoomJson>, fetch: Fetcher, failing: Fetcher, query: Query, id: int)
    requires id !in cache && failing(id).None?
    requires forall k :: k != id ==> failing(k) == fetch(k)
    ensures FreeRooms(rooms, cache, failing, query) == FreeRooms(WithoutId(rooms, id), cache, fetch, query)
  {
    if rooms != [] {
      var init, last := rooms[..|rooms| - 1], rooms[|rooms| - 1];
      FetchFailureIsolated(init, cache, fetch, failing, query, id);
      var rest := WithoutId(init, id);
      assert FreeRooms(rooms, cache, failing, query)
          == FreeRooms(init, cache, failing, query) + Contribution(cache, failing, query, last.id);
      if last.id == id {
        assert Contribution(cache, failing, query, last.id) == [];
        assert WithoutId(rooms, id) == rest;
      } else {
        assert WithoutId(rooms, id) == rest + [last];
        assert (rest + [last])[..|rest|] == rest;
        assert Lookup(cache, failing, last.id) == Lookup(cache, fetch, last.id);
        assert FreeRooms(rest + [last], cache, fetch, query)
            == FreeRooms(rest, cache, fetch, query) + Contribution(cache, fetch, query, last.id);
      }
    }
  }

  /** Two rooms of building "X"; room 101 is booked on 10/6/2025 from 09:00 to 11:00, room 102
      has no bookings. */
  function SampleCatalog(): seq<Room>
  {
    [Room(101, "X"), Room(102, "X")]
  }

  function SampleService(id: int): Option<RoomJson>
  {
    if id == 101 then Some(RoomJson("R101", Some(EventList(Some([Event(Some(Day(10, 6, 2025)), Some(9 * 60), Some(11 * 60))])))))
    else if id == 102 then Some(RoomJson("R102", Some(EventList(Some([])))))
    else None
  }

  /** Both sample rooms belong to building "X". */
  lemma SampleBuildingRooms()
    ensures RoomsInBuilding(SampleCatalog(), "X") == SampleCatalog()
  {
    var rooms := SampleCatalog();
    assert rooms[..1] == [Room(101, "X")] && rooms[..1][..0] == [];
  }

  /** A 09:30-10:30 window on the booking's day excludes room 101 only. */
  lemma SampleOverlapExcludesRoom()
    ensures Run(RoomsInBuilding(SampleCatalog(), "X"), map[], SampleService,
                Query(Some(Day(10, 6, 2025)), Some(9 * 60 + 30), Some(10 * 60 + 30))).freeRooms
            == [("R102", 102)]
  {
    var query := Query(Some(Day(10, 6, 2025)), Some(9 * 60 + 30), Some(10 * 60 + 30));
    var rooms := SampleCatalog();
    SampleBuildingRooms();
    var busy := SampleService(101).value;
    assert Conflicts(EventsOf(busy)[0], query);
    assert HasConflict(EventsOf(busy), query);
    var one := [Room(101, "X")];
    assert rooms[..1] == one && one[..0] == [];
    assert Run(one, map[], SampleService, query) == Visit(Progress(map[], [], []), one[0], SampleService, query);
    assert Run(one, map[], SampleService, query).freeRooms == [];
  }

  /** An 11:00-12:00 window starts when room 101's booking ends: both rooms are free. */
  lemma SampleBackToBackKeepsRoom()
    ensures Run(RoomsInBuilding(SampleCatalog(), "X"), map[], SampleService,
                Query(Some(Day(10, 6, 2025)), Some(11 * 60), Some(12 * 60))).freeRooms
            == [("R101", 101), ("R102", 102)]
  {
    SampleBuildingRooms();
  }

  /** The building name is compared exactly: "x" is not "X". */
  lemma SampleCaseMismatchFindsNothing()
    ensures RoomsInBuilding(SampleCatalog(), "x") == []
  {
  }

  /** The application's single cache and the catalog it serves. */
  class RoomFinder {
    const catalog: seq<Room>
    var cache: map<int, RoomJson>

    constructor (catalog: seq<Room>)
      ensures this.catalog == catalog && cache == map[]
    {
      this.catalog := catalog;
      cache := map[];
    }

    /** The free rooms of `buildingName` for `query`, consulting and filling the cache;
        `requests` are the ids sent to the service, in order. */
    method GetFreeRooms(buildingName: string, query: Query, fetch: Fetcher)
      returns (freeRooms: seq<(string, int)>, ghost requests: seq<int>)
      modifies this
      ensures Progress(cache, freeRooms, requests) == Run(RoomsInBuilding(catalog, buildingName), old(cache), fetch, query)
      ensures freeRooms == FreeRooms(RoomsInBuilding(catalog, buildingName), old(cache), fetch, query)
      ensures forall k :: k in old(cache) ==> k in cache && cache[k] == old(cache)[k]
      ensures forall k :: k in cache && k !in old(cache) ==> fetch(k) == Some(cache[k])
      ensures forall k :: k in requests ==> k !in old(cache)
    {
      var rooms := RoomsInBuilding(catalog, buildingName);
      freeRooms, requests := [], [];
      for i := 0 to |rooms|
        invariant Progress(cache, freeRooms, requests) == Run(rooms[..i], old(cache), fetch, query)
      {
        assert rooms[..i + 1][..i] == rooms[..i];
        var room := rooms[i];
        var roomJson: RoomJson;
        if room.id in cache {
          roomJson := cache[room.id];
        } else {
          requests := requests + [room.id];
          var fetched := fetch(room.id);
          if fetched.None? {
            continue;
          }
          roomJson := fetched.value;
          cache := cache[room.id := roomJson];
        }
        var isFree := RoomIsFree(EventsOf(roomJson), query);
        if isFree {
          freeRooms := freeRooms + [(roomJson.name, room.id)];
        }
      }
      assert rooms[..|rooms|] == rooms;
      RunMatchesFreeRooms(rooms, old(cache), fetch, query);
      RunCacheInvariant(rooms, old(cache), fetch, query);
      RunRequests(rooms, old(cache), fetch, query);
    }
  }
}
