# Free rooms of a building — a Dafny model

This project models the room-availability core of a small web application, `lib/roomUtils.ts`. The application answers "which rooms of this building are free on this day between these two times?". It reads a static catalog of rooms, each with its building. It fetches each room's bookings from an external scheduling service and keeps every fetched schedule in a process-wide cache. It then lists the rooms that have no booking overlapping the requested window.

Modules:

- `Wrappers` (`wrappers.dfy`): `Option`, used wherever the source has a value or `null`/`undefined`.
- `Sequences` (`sequences.dfy`): `IsSubsequence`, which says that a list keeps the order of the list it was taken from.
- `StringOrder` (`string_order.dfy`): the order JavaScript's default `sort()` gives strings (character by character, a proper prefix first). It also holds an insertion sort proved sorted and a permutation. A lemma shows that a list without repeats has only one sorted arrangement, so any sorting algorithm gives the same result.
- `Catalog` (`catalog.dfy`): the catalog records and `getRoomsFromBuilding` / `getBuildingNames`. The catalog is a parameter, not the imported JSON file.
- `Schedule` (`schedule.dfy`): the service's room answer, its events, and the overlap rule. `RoomIsFree` is the inner event loop, with its `isFree` flag and its `break`.
- `Resolver` (`resolver.dfy`): `getFreeRooms`. The class `RoomFinder` holds the catalog and the cache (`map<int, RoomJson>`). `GetFreeRooms` is the loop over the building's rooms, proved equal to the specification function `Run`. `FreeRooms` is an independent room-by-room definition of the answer, and `Run` is proved to produce it.

Parsed values stand in for the `date-fns` parsing. A date is an `Option<Day>` and a time of day an `Option<Minute>`. `None` is an Invalid Date: `isSameDay` and `<` against it are false. So an event with an unreadable field never blocks a room. With an unreadable requested date or time, every room whose schedule is obtained is reported free.

The scheduling service is a function `Fetcher` from room id to `Option<RoomJson>`. `None` covers a non-200 status, a transport error, a body that is not JSON (the `await response.json()` inside the `try` rejects, the error is caught and `null` is returned), and a JSON body that is `null` or another falsy value. Besides the free rooms, `GetFreeRooms` has a ghost out-parameter `requests`: the ids sent to the service, in order. It exists only for the proofs, as the model's record of the network calls, so "a cache hit never calls the service" can be stated.

Two behaviours of the code that the model keeps as written:
- A 200 response whose body parses as JSON is used as it is. The code does not check the shape of that JSON, so a JSON body of the wrong shape is not turned into a failure.
- An unparseable requested date or time is not rejected by this core. It makes every event non-conflicting (`Schedule.MalformedQueryNeverConflicts`).

## Model

| member | source | states |
|---|---|---|
| `Catalog.RoomsInBuilding` | lib/roomUtils.ts:55-59 | Each catalog record whose building name equals the argument exactly is kept, as often as it occurs. No other record is kept. The result keeps catalog order (a subsequence of the catalog). |
| `Catalog.UnknownBuildingHasNoRooms` | lib/roomUtils.ts:55-59 | A building name that no record carries (including one that differs only in case) selects the empty list. |
| `Catalog.Labels` | lib/roomUtils.ts:117 | `cachedRooms.map(room => room.building_name)`: one label per record, the label at each position being that record's building name. |
| `StringOrder.Below` | lib/roomUtils.ts:118 | The comparison the default `sort()` uses: character by character, a proper prefix first. It is proved irreflexive, transitive and total (`BelowIrreflexive`, `BelowTransitive`, `BelowTotal`). |
| `Catalog.IndexOf` | lib/roomUtils.ts:118 | `indexOf` returns the position of the first occurrence: the value is there and not earlier. |
| `Catalog.FirstOccurrences` | lib/roomUtils.ts:117-118 | The `indexOf(value) === index` filter keeps each label once and loses none. It keeps them in the order of their first occurrences: an earlier entry's first index is smaller than a later entry's. |
| `StringOrder.Sort` | lib/roomUtils.ts:118 | `sort()` gives an ascending arrangement that is a permutation of its input. |
| `StringOrder.StrictlySortedUnique` | lib/roomUtils.ts:118 | Two strictly ascending lists with the same elements are equal. So the sorted result does not depend on the sorting algorithm. |
| `Catalog.BuildingNames` | lib/roomUtils.ts:116-119 | The building list is strictly ascending (sorted, no duplicates). A name is in it iff some catalog record has that building name. |
| `Catalog.BuildingNamesCanonical` | lib/roomUtils.ts:116-119 | Any strictly ascending list of exactly the catalog's building names equals `BuildingNames`. |
| `Catalog.BuildingNamesDistinct` | lib/roomUtils.ts:116-119 | No building is listed twice. |
| `Schedule.EventsOf` | lib/roomUtils.ts:85 | The `events?.events` list with `[]` as the fallback: the event list, or the empty list when `events` or `events.events` is missing. |
| `Schedule.SameDay` | lib/roomUtils.ts:93 | `isSameDay`: true only when both days are valid and equal, false as soon as either is an Invalid Date. |
| `Schedule.Before` | lib/roomUtils.ts:98 | Date `<` on parsed times: true only when both are valid and the first is earlier, false as soon as either is an Invalid Date. |
| `Schedule.Conflicts` | lib/roomUtils.ts:93-98 | An event is in the way iff it is on the requested day and `eventStart < inputEnd && inputStart < eventEnd`. |
| `Schedule.RoomIsFree` | lib/roomUtils.ts:86-103 | The event scan, which skips other days and stops at the first overlap, reports free iff no event conflicts with the query. |
| `Schedule.OtherDaysIrrelevant` | lib/roomUtils.ts:93-95 | A room is busy iff it is busy with only the events of the requested day kept. Events on other days never matter, whatever their times. |
| `Schedule.OtherDayNeverConflicts` | lib/roomUtils.ts:93-95 | An event whose date differs from the requested date does not conflict. |
| `Schedule.MalformedEventNeverConflicts` | lib/roomUtils.ts:89-98 | An event with an unreadable date, start or end does not conflict. |
| `Schedule.MalformedQueryNeverConflicts` | lib/roomUtils.ts:71-98 | With an unreadable requested date, start or end, no event list conflicts. |
| `Schedule.NoEventsIsFree` | lib/roomUtils.ts:85-86 | A room whose answer has no `events`, no `events.events`, or an empty list is free. |
| `Schedule.AdjacentBookingDoesNotConflict` | lib/roomUtils.ts:98 | An event that ends exactly when the window starts, or starts exactly when it ends, does not conflict. |
| `Schedule.ConflictMeansSharedMinute` | lib/roomUtils.ts:98 | For well-formed intervals, the test `eventStart < inputEnd && inputStart < eventEnd` holds iff the two half-open intervals share a minute (on the same day). |
| `Resolver.RoomFinder.constructor` | lib/roomUtils.ts:22 | The cache starts empty. |
| `Resolver.Check` | lib/roomUtils.ts:85-107 | The end of one iteration: the room's `(name, id)` is appended iff none of its events conflicts. |
| `Resolver.Visit` | lib/roomUtils.ts:76-107 | One iteration: a cached schedule is used as it is. Otherwise the id is requested. A failed answer skips the room. A good answer is cached and then checked. |
| `Resolver.Run` | lib/roomUtils.ts:67-111 | The whole loop: the iterations over the rooms in order, starting from the given cache with an empty answer and no requests. |
| `Resolver.RoomFinder.GetFreeRooms` | lib/roomUtils.ts:61-114 | The new cache, the result and the requests equal `Run` over the building's rooms from the old cache. The result equals the room-by-room `FreeRooms`. Old cache entries are kept unchanged. New entries are the service's answers. No cached id is requested. |
| `Resolver.RunCacheInvariant` | lib/roomUtils.ts:77-83 | Entries are never replaced or removed. Each entry is the schedule the query used for that id. The new keys are exactly the listed rooms whose fetch succeeded. |
| `Resolver.RunMatchesFreeRooms` | lib/roomUtils.ts:75-107 | The loop, with its cache updates and skips, computes exactly the room-by-room answer `FreeRooms`. |
| `Resolver.RunRequests` | lib/roomUtils.ts:77-80 | The service is asked only about listed rooms missing from the starting cache. It is asked about every such room. It is never asked twice about an id it answered successfully. |
| `Resolver.FreeRoomsMembers` | lib/roomUtils.ts:105-107 | `(name, id)` is in the answer iff some listed room has id `id`, its schedule is available, its reported name is `name`, and none of its events conflicts. |
| `Resolver.FreeRoomsInOrder` | lib/roomUtils.ts:75-107 | The answer's ids are a subsequence of the building's room ids in catalog order. The answer is never longer than the room list and names only rooms of the list. |
| `Resolver.FreeRoomsDependsOnLookup` | lib/roomUtils.ts:77-83 | Two caches that give the same schedule for every id give the same answer. |
| `Resolver.LookupAfterRun` | lib/roomUtils.ts:77-83 | After a query, the cache gives for every id the same schedule the query itself used. |
| `Resolver.RepeatedQuery` | lib/roomUtils.ts:77-83 | Repeating a query against a service that answers as before gives the same answer and the same cache. It asks the service only about ids whose fetch failed. |
| `Resolver.CachedVerdictStable` | lib/roomUtils.ts:77-83 | For every id whose schedule a query obtained, a later query for the same window gives the same verdict, whatever the service answers then. |
| `Resolver.RepeatKeepsFreeRooms` | lib/roomUtils.ts:77-107 | Repeating a query, whatever the service answers the second time, lists again every room the first query listed as free. |
| `Resolver.LaterQueryUsesCache` | lib/roomUtils.ts:77-83 | A later query, whatever it asks and whatever the service answers, never requests an id that was cached or fetched successfully before. |
| `Resolver.FetchFailureIsolated` | lib/roomUtils.ts:79-80 | If the service fails for one id only, the answer is the answer for the remaining rooms. The other rooms are still evaluated exactly as before. |
| `Resolver.SampleBuildingRooms` | lib/roomUtils.ts:55-59 | Example: both sample rooms of building "X" are selected, in catalog order. |
| `Resolver.SampleOverlapExcludesRoom` | lib/roomUtils.ts:88-103 | Example: with room 101 booked 09:00–11:00 and room 102 empty, a 09:30–10:30 window on that day yields only room 102. |
| `Resolver.SampleBackToBackKeepsRoom` | lib/roomUtils.ts:98 | Example: an 11:00–12:00 window, which starts when room 101's booking ends, yields both rooms in catalog order. |
| `Resolver.SampleCaseMismatchFindsNothing` | lib/roomUtils.ts:57 | Example: building "x" selects none of building "X"'s rooms. |

## Left out

- `getRoomJson`'s body (lib/roomUtils.ts:35-53) is modelled only as the `Fetcher` oracle. The HTTP request, status check, JSON decoding and console logging are I/O.
- `getHeaders` (lib/roomUtils.ts:24-33) is constant header data with no decision in it.
- The `date-fns` `parse` and `isSameDay` functions are library code. The model takes their results as `Option` values. Text formats and calendar validity are not modelled.
- `Resolver.RoomFinder.GetFreeRooms` takes the already-parsed `Query`. Parsing the three input strings (lib/roomUtils.ts:71-73) is part of the `date-fns` gap above.
- Times are parsed against "now" as the reference day. The model reads them as minutes of the same day. A parse that straddles midnight or a daylight-saving change is not modelled.
- `StringOrder.Below` compares Dafny characters, which are Unicode scalar values. JavaScript compares UTF-16 code units. The two orders differ only between characters above U+FFFF and characters U+E000–U+FFFF.
- `Resolver.RepeatedQuery` assumes the repeated query gets the same service answers. With a service that now answers an id that failed before, that room may be fetched, cached and listed, so the answer and the cache may grow. `Resolver.RepeatKeepsFreeRooms` and `Resolver.CachedVerdictStable` state what holds for any later answers.
- `Resolver.Fetcher` gives one answer per room id within a query. A service that answers differently when a failed id is requested again is not modelled.
- Service answers that are not objects, an `events.events` that is not an array, and events with missing fields (which make `parse` throw) are not modelled.
- async/await and concurrent queries racing on the shared cache are not modelled. The loop is sequential, with each fetch awaited.
- The UI (app/page.tsx), the HTTP routes (app/api/getFreeRooms/route.ts, app/api/getBuildings/route.ts) and the offline catalog script (scripts/saveValidRooms.js) are not part of this model.
