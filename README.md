# Manhole card route planner: a Dafny model

The route planner shows Japan's manhole cards on a map and lets a collector plan a
walk. A route is an ordered list of stops, each a card of the catalogue. Between two
consecutive stops the collector traces a path point by point; finished paths go in a
segment store keyed `"fromId::toId"`. This project models the planner's
bookkeeping and proves what it promises:

- `route.dfy` (module `Route`) is the route hook (`src/useRoute.js`). The class
  `RouteState` holds the three pieces of state (`stops`, `segments`, `drawing`), with
  one method per callback. Each method is specified by the pure updater it hands to
  React (`Toggled`, `Without`, `Moved`, `Started`, `AddPoint`, `UndoPoint`,
  `Finished`, `SegmentCleared`), and lemmas about the updaters state what the
  callbacks promise. `moveStop` is modelled as two array splices with loop invariants.
  The module also covers key building and the resolution of stored ids.
- `share.dfy` (module `Share`) covers the share link and the GPX export
  (`src/ExportShare.js`):
  - the `{s, g}` payload and its decoder, with the round trip through an abstract
    text codec;
  - XML escaping and its inverse;
  - the GPX 1.1 document (the Topografix GPX 1.1 schema), built by appending to a
    string in nested loops and proved equal to a rendering of its abstract content.
- `walkingstats.dfy` (module `WalkingStats`) covers the sorted list of collection
  days and the per-day distance, time and step figures (`src/WalkingStats.js`).
- `missedcards.dfy` (module `MissedCards`) covers the missed cards and the search
  for the route point closest to each (`src/MissedCardsLayer.js`). This includes
  splitting segment keys on `"::"` and its relation to `segmentKey`.
- `cards.dfy` (module `Cards`), `segments.dfy` (module `SegmentMap`) and `json.dfy`
  (module `Json`) hold the shared pieces:
  - a card and a coordinate;
  - `find` and `filter`;
  - the segment store as an ordered list of entries with distinct keys;
  - a parsed JSON value.

Modelling choices:

- **Segment store.** The store is a JavaScript object. Its string keys keep their
  insertion order, and that order decides the order of track segments in the GPX
  file and which point wins a tie in the closest-approach search. So the store is a
  sequence of `(key, points)` entries. `Put` keeps a present key's position and
  appends a new key, as `{ ...segs, [key]: v }` does.
- **Text codec.** `JSON.stringify`/`JSON.parse`, `encodeURIComponent`/
  `decodeURIComponent` and `btoa`/`atob` are one pair of functions passed as
  parameters. A parse failure (a thrown exception caught by the source) is `None`.
  The round-trip lemmas assume only `Json.RoundTrips` of the one value written:
  parsing the text serialised for it gives it back, and that text is not empty.
- **Distances and numbers.** The distance between two positions (haversine in the
  source) is a parameter `dist`, so every property holds for any distance function.
  JavaScript's conversion of numbers to text in the GPX file is the parameter
  `showNum`. Numbers are `real`.
- **Absent values.** `undefined`/`null` are `None` of an `Option`. `Infinity` as
  the starting minimum in `findClosestApproach` is `None`.

Where the code and the intended behaviour differ, the model follows the code:

- **Starting a drawing.** The planner's description says that starting a drawing
  while a session is open does nothing. The code (`src/useRoute.js:88-102`)
  replaces the open session, and `Started` does the same.
- **Toggling a card back on.** Toggling a card off and on again puts it at the end
  of the route, not at its old position. `ToggleTwiceRestores` is therefore stated
  for a card that is not on the route.
- **Splitting a key.** `key.split("::")` gives back the two ids written by
  `segmentKey` when neither id contains `"::"` and the first id does not end in
  `':'` (`SplitSegmentKey`). Without the second condition the first separator found
  is the wrong one: `SplitSegmentKeyColon` shows `"x:"` and `"y"` coming back as
  `"x"` and `":y"`.

## Model

| member | source | states |
|---|---|---|
| `Cards.Find` | src/useRoute.js:58 | `None` exactly when no card has the id; otherwise the first card with that id |
| `Cards.Filter` | src/useRoute.js:65 | the kept cards are exactly the members that pass, in their original relative order (a subsequence), and no more than the input |
| `SegmentMap.Get` | src/useRoute.js:122 | `None` exactly when the key is absent; otherwise the path stored under it |
| `SegmentMap.Put` | src/useRoute.js:122 | the key then maps to the new path, every other key keeps its path, existing keys keep their positions, a new key goes at the end |
| `SegmentMap.PutKeepsDistinctKeys` | src/useRoute.js:122 | putting keeps keys distinct and grows the store only for a new key |
| `SegmentMap.Delete` | src/useRoute.js:138-139 | the key is gone, every other key keeps its path, an absent key is a no-op, and exactly the entries with other keys stay, in their original relative order (a subsequence) |
| `SegmentMap.DeleteKeepsDistinctKeys` | src/useRoute.js:138-139 | deleting keeps keys distinct |
| `Json.Field` | src/ExportShare.js:19-23 | member lookup on a parsed object: `None` exactly when no member has the name; otherwise the value of the last member with it |
| `Route.SegmentKey` | src/useRoute.js:24-26 | the key is the from-stop's id, then `"::"`, then the to-stop's id |
| `Route.ResolveId` | src/useRoute.js:13 | at most one card; none exactly when the id is not a string or no catalogue card carries it; otherwise the first catalogue card carrying it |
| `Route.ResolveIds` | src/useRoute.js:12-14 | resolving stored ids yields at most one card per id, each a catalogue card (with `ResolveId` and `ResolveIdsAppend` this fixes the result: each id in turn, unknown ones dropped) |
| `Route.ResolveIdsAppend` | src/useRoute.js:12-14 | resolution works id by id: it distributes over concatenation |
| `Route.ResolveStopIds` | src/useRoute.js:12-14 | with distinct catalogue ids, the ids of catalogue cards resolve back to exactly those cards, in order |
| `Route.LoadStops` | src/useRoute.js:7-18 | missing or empty stored text, or text that does not parse to an array, gives no stops; text that parses to an array gives `ResolveIds` of its items |
| `Route.SavedStops` | src/useRoute.js:20-22 | the text written is the serialised array of stop ids in route order; `LoadSavedStops` reads it back |
| `Route.LoadSavedStops` | src/useRoute.js:7-22 | loading what `saveStops` wrote gives back the route, for catalogue cards with distinct ids, when the codec reads back the text written for the id array |
| `Route.Without` | src/useRoute.js:64-66 | no stop with the id remains, the others stay in their relative order, and an absent id leaves the route unchanged |
| `Route.Toggled` | src/useRoute.js:56-62 | membership of the id flips; an absent card is appended at the end; a present card's id is removed from a subsequence of the route |
| `Route.ToggleTwiceRestores` | src/useRoute.js:56-62 | toggling an absent card twice restores the route |
| `Route.ToggleKeepsDistinctIds` | src/useRoute.js:56-62 | toggling keeps stop ids distinct |
| `Route.RemoveAt` | src/useRoute.js:71 | `splice(i, 1)`: one element fewer, those after `i` shifted left, and the multiset loses exactly the removed element |
| `Route.InsertAt` | src/useRoute.js:72 | `splice(j, 0, x)`: one element more, `x` at `j`, those from `j` shifted right, and the multiset gains exactly `x` |
| `Route.Moved` | src/useRoute.js:68-75 | same length, a permutation (equal multisets), the moved stop at the target index, and the other stops in their relative order |
| `Route.SpliceOut` | src/useRoute.js:71 | `splice(i, 1)` on the array: the prefix is the list with position `i` removed |
| `Route.SpliceIn` | src/useRoute.js:72 | `splice(j, 0, x)` on the array: the list with `x` inserted at `j` |
| `Route.Started` | src/useRoute.js:88-102 | for an in-range index, a session between stops `i` and `i + 1` keyed by `segmentKey`, seeded with the from-stop's position, replacing any open one; otherwise unchanged |
| `Route.AddPoint` | src/useRoute.js:104-109 | exactly one point appended, everything else kept; no-op without a session |
| `Route.UndoPoint` | src/useRoute.js:111-116 | drops the last point only when more than one remains, so the seed is never removed; no-op without a session |
| `Route.AddThenUndo` | src/useRoute.js:104-116 | adding a point then undoing restores the session |
| `Route.Finished` | src/useRoute.js:118-125 | the key maps to the session's points plus the to-stop's position, every other key unchanged; no session leaves the store unchanged |
| `Route.DrawTwoPointsAndFinish` | src/useRoute.js:88-125 | start, add `p1`, add `p2`, finish stores `[from, p1, p2, to]` under the pair's key |
| `Route.SegmentCleared` | src/useRoute.js:131-144 | only the key of stops `i`, `i + 1` is deleted, every other key unchanged, the surviving entries in their order; out of range is a no-op |
| `Route.RouteState.constructor` | src/useRoute.js:44-46 | the stored stops and segments, and no drawing |
| `Route.RouteState.ToggleStop` | src/useRoute.js:56-62 | stops become `Toggled`, nothing else changes, the store invariant holds |
| `Route.RouteState.RemoveStop` | src/useRoute.js:64-66 | stops become `Without` the id (afterwards not in the route), nothing else changes |
| `Route.RouteState.MoveStop` | src/useRoute.js:68-75 | the copied array after the two splices equals `Moved`; nothing else changes |
| `Route.RouteState.ClearStops` | src/useRoute.js:77-81 | stops and segments empty, no drawing |
| `Route.RouteState.IsInRoute` | src/useRoute.js:83-86 | true exactly when some stop carries the id |
| `Route.RouteState.StartDrawing` | src/useRoute.js:88-102 | the session becomes `Started`; stops and segments unchanged |
| `Route.RouteState.AddDrawingPoint` | src/useRoute.js:104-109 | the session becomes `AddPoint`; stops and segments unchanged |
| `Route.RouteState.UndoDrawingPoint` | src/useRoute.js:111-116 | the session becomes `UndoPoint`; stops and segments unchanged |
| `Route.RouteState.FinishDrawing` | src/useRoute.js:118-125 | segments become `Finished`, the session is cleared, keys stay distinct |
| `Route.RouteState.CancelDrawing` | src/useRoute.js:127-129 | the session is cleared, stops and segments unchanged |
| `Route.RouteState.ClearSegment` | src/useRoute.js:131-144 | segments become `SegmentCleared`; stops and session unchanged |
| `Share.SegmentsJson` | src/ExportShare.js:7 | the `g` member: an object with one member per stored key, in store order, holding that key's points |
| `Share.SegmentsJsonInjective` | src/ExportShare.js:7 | different stores are written as different objects |
| `Share.Payload` | src/ExportShare.js:5-8 | an object whose `s` member is the array of stop ids in route order and whose `g` member is the segment object |
| `Share.EncodeRouteData` | src/ExportShare.js:4-11 | the payload through the text codec; `DecodeEncodedRoute` reads it back |
| `Share.StripHash` | src/ExportShare.js:15 | exactly one leading `#` is removed, if there is one |
| `Share.DecodeRouteData` | src/ExportShare.js:13-28 | `null` for an empty remainder, and a result exactly when the text parses to a value with an array `s`; stops are `ResolveIds` of the `s` items (catalogue cards in `s` order, unknown ids dropped); segments are `g` when it is present and truthy, `{}` otherwise |
| `Share.DecodeMissingSegments` | src/ExportShare.js:19-24 | a payload with array `s` and no `g` decodes to the resolved `s` ids and `{}` |
| `Share.DecodeEncodedRoute` | src/ExportShare.js:4-28 | decoding `#` plus the encoded route gives back the same stops in order and the same segment object, when the codec reads back the text written for the payload |
| `Share.ReplaceAll` | src/ExportShare.js:45 | the result holds only characters of the input other than the replaced one, or of the replacement; no occurrence means no change |
| `Share.ReplaceAllChar` | src/ExportShare.js:45 | on one character: an occurrence of the searched character becomes the replacement, any other stays (with `ReplaceAllAppend`, every occurrence is replaced) |
| `Share.ReplaceAllAppend` | src/ExportShare.js:45 | replacing distributes over concatenation |
| `Share.EscapeXml` | src/ExportShare.js:45-46 | the escaped text has no raw `<` and no raw `>` |
| `Share.EscapeXmlIsPerChar` | src/ExportShare.js:45-46 | because `&` is replaced first, the three passes escape each character exactly once |
| `Share.UnescapeEscapeXml` | src/ExportShare.js:45-46 | unescaping the escaped text recovers the name or ward |
| `Share.Waypoints` | src/ExportShare.js:43-52 | one waypoint per stop, in route order |
| `Share.Track` | src/ExportShare.js:54-68 | one track segment per stored path, in store order |
| `Share.GpxOf` | src/ExportShare.js:43-68 | one waypoint per stop at its coordinates, whose name and description unescape to the stop's name and ward (empty for no ward) and hold no angle bracket; one track segment per stored path |
| `Share.TrackText` | src/ExportShare.js:54-71 | the `<trk>` element is written exactly when there is a stored path |
| `Share.Render` | src/ExportShare.js:30-75 | the document starts with the XML declaration and metadata header and ends with `</gpx>` |
| `Share.AppendWaypoints` | src/ExportShare.js:43-52 | the loop appends the `<wpt>` elements of all stops, in order |
| `Share.AppendTrkseg` | src/ExportShare.js:59-67 | the loop appends one `<trkseg>` with a `<trkpt>` per point, in order |
| `Share.AppendTrack` | src/ExportShare.js:54-71 | the loop appends the `<trk>` element, or nothing for an empty store |
| `Share.GenerateGpx` | src/ExportShare.js:30-75 | the appended text is the rendering of `GpxOf`, so it has that content and structure |
| `WalkingStats.CollectedCards` | src/WalkingStats.js:8 | exactly the cards whose flag is not `false`, in catalogue order |
| `WalkingStats.InsertSorted` | src/WalkingStats.js:9-11 | inserting into a strictly increasing list keeps it strictly increasing and adds exactly the new value |
| `WalkingStats.SortedDays` | src/WalkingStats.js:9-11 | strictly increasing, holding exactly the days of the given cards |
| `WalkingStats.Days` | src/WalkingStats.js:8-11 | strictly increasing (sorted, no duplicates), holding exactly the days of the collected cards |
| `WalkingStats.DayStops` | src/WalkingStats.js:24 | exactly the route's stops of the day, in route order |
| `WalkingStats.PairSum` | src/WalkingStats.js:25-31 | fewer than two stops give 0; with non-negative recorded distances the sum is non-negative |
| `WalkingStats.PairSumAppend` | src/WalkingStats.js:25-31 | joining two runs of stops adds the leg that connects them |
| `WalkingStats.PairSumNoPaths` | src/WalkingStats.js:28-30 | unrecorded legs count 0: with none recorded the distance is 0 |
| `WalkingStats.DayDistance` | src/WalkingStats.js:25-31 | the loop's distance is the sum of the recorded legs between consecutive stops |
| `WalkingStats.Round` | src/WalkingStats.js:33 | `Math.round`: the nearest integer, halves rounded up |
| `WalkingStats.DayStats` | src/WalkingStats.js:22-36 | one entry per day, in order, with the day's stop count, its distance, `distance / 5 * 60` minutes and `round(distance * 1300)` steps |
| `WalkingStats.HasAnyRoute` | src/WalkingStats.js:39 | true exactly when some day's distance is positive |
| `MissedCards.MissedCardsOf` | src/MissedCardsLayer.js:58-61 | exactly the cards whose flag is `false`, in order |
| `MissedCards.MissedOrCollected` | src/MissedCardsLayer.js:58-61 | a card is missed exactly when it is not counted as collected (an undefined flag counts as collected) |
| `MissedCards.SplitSep` | src/MissedCardsLayer.js:23 | splitting always yields at least one piece |
| `MissedCards.SplitNoSep` | src/MissedCardsLayer.js:23 | a string without `"::"` is a single piece |
| `MissedCards.SplitAfter` | src/MissedCardsLayer.js:23 | the split cuts at the first `"::"` after a piece without one that does not end in `':'` |
| `MissedCards.SplitSegmentKey` | src/useRoute.js:24-26 | splitting a `segmentKey` gives back the two ids, under the conditions above |
| `MissedCards.SplitSegmentKeyColon` | src/MissedCardsLayer.js:23 | a from-id ending in `':'` is not recovered |
| `MissedCards.SegmentKeyInjective` | src/useRoute.js:24-26 | under the same conditions, different pairs of ids get different keys |
| `MissedCards.Contributes` | src/MissedCardsLayer.js:22-28 | a path takes part when no day is selected, or when both ends are route stops and one of them is on the day (`ContributesSegmentKey` states it for a key of two stops) |
| `MissedCards.FromDay` | src/MissedCardsLayer.js:30-34 | the day of the stop the key's from-id names, `null` if none (`ContributesSegmentKey` states it for a key of two stops) |
| `MissedCards.Gathered` | src/MissedCardsLayer.js:21-39 | the points of the taking-part paths, in store order and then path order, each tagged with its path's day (`GatheredFrom` and `GatheredAll` give both directions) |
| `MissedCards.ContributesSegmentKey` | src/MissedCardsLayer.js:21-34 | for a key of two route stops: it takes part iff no day is selected or one of the two stops is on that day, and its points carry the from-stop's day |
| `MissedCards.Tagged` | src/MissedCardsLayer.js:36-38 | each point of a path, in order, tagged with the path's day |
| `MissedCards.GatheredFrom` | src/MissedCardsLayer.js:21-39 | every gathered point comes from a taking-part path and carries that path's day |
| `MissedCards.GatheredAll` | src/MissedCardsLayer.js:21-39 | every point of a taking-part path is gathered with its path's day, for any selected day; with none selected, every path takes part |
| `MissedCards.GatherPoints` | src/MissedCardsLayer.js:19-39 | the nested loops gather exactly `Gathered` |
| `MissedCards.FindClosestApproach` | src/MissedCardsLayer.js:18-55 | `null` exactly when no point is gathered; otherwise a distance no greater than to any gathered point, equal to that of the first point at the least distance, whose day is returned |

## Left out

- `src/distance.js` (haversine over floating point) is not part of this model: the distance is the parameter `dist`, and no property of it is assumed.
- `JSON.parse`/`JSON.stringify`, `btoa`/`atob` and `encodeURIComponent`/`decodeURIComponent` are the abstract pair `serialise`/`parse`. That they read back the one value written is a hypothesis of the round-trip lemmas (`Json.RoundTrips`), not proved.
- Number-to-text conversion in the GPX file is the parameter `showNum`. `toFixed` in the walking chart is not modelled.
- Numbers are exact reals: floating-point rounding, `NaN` and `Infinity` distances are not modelled.
- `WalkingStats.DayStats` and `MissedCards.FindClosestApproach` are stated for exact reals. A `NaN` distance from the source's floating-point haversine would never win the `<` comparison; that case is not captured.
- The browser I/O is left out: `localStorage`, `new Date().toISOString()` (the GPX time stamp is a parameter), the `Blob` download and the clipboard.
- The React wiring is left out (`useState`, `useEffect` saving, `useCallback`/`useMemo`): each callback is a method acting at once on the state.
- `loadSegments` reads the segment store back from storage unvalidated; it is not modelled, and `RouteState`'s constructor takes the store as given.
- `Route.RouteState.MoveStop` requires both indices in range: the stop list offers moves only between existing positions (`src/StopList.js:62-74`). `splice` with an index outside the list is not modelled.
- `Share.DecodeRouteData` keeps `g` as the parsed JSON value, as the source does, without checking that it is a segment object.
- The `approaches` object of `MissedCardsLayer` (one closest approach per missed card, keyed by id) is not modelled beyond `FindClosestApproach` for one card.
- The bar heights and `maxDistance` in the walking chart, the day colours, and all presentational components are left out. These are the stop list, drawer, gallery, markers, route lines, trip stats, heat map and day picker.
- The map and the external routing service (`src/App.js`, `src/RoutingMachine.js`), `src/index.js` and the catalogue scraper are left out.
