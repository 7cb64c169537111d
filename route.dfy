/**
 * The route hook: the ordered list of stops, the segment store, and the one drawing
 * session in which the user traces the path between two consecutive stops.
 * Each callback of the hook is a method of `RouteState`; the `prev => next` updaters
 * it hands to React are the functions below, and the lemmas state what the callbacks
 * promise when they are used one after another.
 */
module Route {
  import opened Cards
  import opened SegmentMap
  import opened Json

  /** `${a.id}::${b.id}`: the key of the segment drawn from `a` to `b`. */
  function SegmentKey(a: Card, b: Card): (r: string)
    ensures |r| == |a.id| + 2 + |b.id|
    ensures r[..|a.id|] == a.id && r[|a.id|..|a.id| + 2] == "::" && r[|a.id| + 2..] == b.id
  {
    a.id + "::" + b.id
  }

  /** `stops.map((s) => s.id)`, as the JSON values written to storage or to a share link. */
  function StopIds(stops: seq<Card>): (r: seq<Json>)
    ensures |r| == |stops| && forall i | 0 <= i < |stops| :: r[i] == JStr(stops[i].id)
  {
    seq(|stops|, i requires 0 <= i < |stops| => JStr(stops[i].id))
  }

  /**
   * The catalogue entry one stored id resolves to: nothing for an id that is not a
   * string or that no card carries, otherwise the first card carrying it.
   */
  function ResolveId(id: Json, catalogue: seq<Card>): (r: seq<Card>)
    ensures |r| <= 1
    ensures r != [] <==> id.JStr? && HasId(catalogue, id.s)
    ensures r != [] ==> r[0] in catalogue && r[0].id == id.s && Find(catalogue, id.s) == Some(r[0])
  {
    match id
    case JStr(s) => (match Find(catalogue, s) case Some(c) => [c] case None => [])
    case _ => []
  }

  /**
   * `ids.map((id) => catalogue.find((c) => c.id === id)).filter(Boolean)`: the cards
   * for the stored ids, in stored order; unknown ids and ids that are not strings drop out.
   */
  function ResolveIds(ids: seq<Json>, catalogue: seq<Card>): (r: seq<Card>)
    ensures |r| <= |ids|
    ensures forall c :: c in r ==> c in catalogue
  {
    if |ids| == 0 then [] else ResolveId(ids[0], catalogue) + ResolveIds(ids[1..], catalogue)
  }

  /** Resolution works id by id: resolving a concatenation concatenates the results. */
  lemma {:induction false} ResolveIdsAppend(xs: seq<Json>, ys: seq<Json>, catalogue: seq<Card>)
    ensures ResolveIds(xs + ys, catalogue) == ResolveIds(xs, catalogue) + ResolveIds(ys, catalogue)
  {
    if |xs| > 0 {
      assert (xs + ys)[1..] == xs[1..] + ys;
      ResolveIdsAppend(xs[1..], ys, catalogue);
    } else {
      assert xs + ys == ys;
    }
  }

  /**
   * Ids written from catalogue cards resolve back to exactly those cards, provided the
   * catalogue's identifiers are distinct.
   */
  lemma {:induction false} ResolveStopIds(stops: seq<Card>, catalogue: seq<Card>)
    requires DistinctIds(catalogue)
    requires forall c | c in stops :: c in catalogue
    ensures ResolveIds(StopIds(stops), catalogue) == stops
  {
    if |stops| > 0 {
      assert stops[0] in catalogue;
      var k :| 0 <= k < |catalogue| && catalogue[k] == stops[0];
      FindMember(catalogue, k);
      var ids := StopIds(stops);
      assert ResolveId(ids[0], catalogue) == [stops[0]];
      assert ids[1..] == StopIds(stops[1..]);
      ResolveStopIds(stops[1..], catalogue);
      assert ResolveIds(ids, catalogue) == [stops[0]] + ResolveIds(ids[1..], catalogue);
      assert stops == [stops[0]] + stops[1..];
    }
  }

  /**
   * `loadStops`: no stored text, or empty text, gives no stops; text that does not parse
   * to an array gives no stops (the `catch` branch); otherwise the stored ids are resolved.
   */
  function LoadStops(raw: Option<string>, parse: string -> Option<Json>, catalogue: seq<Card>): (r: seq<Card>)
    ensures raw.None? || raw == Some("") ==> r == []
    ensures raw.Some? && raw != Some("") && !(parse(raw.value).Some? && parse(raw.value).value.JArr?) ==> r == []
    ensures raw.Some? && raw != Some("") && parse(raw.value).Some? && parse(raw.value).value.JArr? ==>
      r == ResolveIds(parse(raw.value).value.items, catalogue)
    ensures forall c :: c in r ==> c in catalogue
  {
    if raw.None? || raw.value == "" then []
    else
      match parse(raw.value)
      case Some(JArr(ids)) => ResolveIds(ids, catalogue)
      case _ => []
  }

  /** What `saveStops` writes: the JSON text of the stop ids. */
  function SavedStops(stops: seq<Card>, serialise: Json -> string): string {
    serialise(JArr(StopIds(stops)))
  }

  /**
   * Saving and loading again gives back the route, when every stop is a catalogue card
   * and the codec reads back the text written for the stop ids.
   */
  lemma LoadSavedStops(stops: seq<Card>, serialise: Json -> string, parse: string -> Option<Json>, catalogue: seq<Card>)
    requires RoundTrips(serialise, parse, JArr(StopIds(stops)))
    requires DistinctIds(catalogue)
    requires forall c | c in stops :: c in catalogue
    ensures LoadStops(Some(SavedStops(stops, serialise)), parse, catalogue) == stops
  {
    ResolveStopIds(stops, catalogue);
  }

  // ---------------------------------------------------------------------------
  // The stop list

  /** The filter predicate `(s) => s.id !== id`. */
  function NotId(id: string): Card -> bool {
    (c: Card) => c.id != id
  }

  /** `stops.filter((s) => s.id !== id)`. */
  function Without(stops: seq<Card>, id: string): (r: seq<Card>)
    ensures !HasId(r, id)
    ensures forall c :: c in r <==> c in stops && c.id != id
    ensures SubseqOf(r, stops)
    ensures !HasId(stops, id) ==> r == stops
  {
    var r := Filter(stops, NotId(id));
    assert !HasId(r, id) by {
      forall i | 0 <= i < |r| ensures r[i].id != id { assert r[i] in r; }
    }
    assert !HasId(stops, id) ==> r == stops by {
      if !HasId(stops, id) { FilterKeepsAll(stops, NotId(id)); }
    }
    r
  }

  /** The `toggleStop` updater: remove every stop with the card's id, or append the card. */
  function Toggled(stops: seq<Card>, card: Card): (r: seq<Card>)
    ensures HasId(r, card.id) <==> !HasId(stops, card.id)
    ensures !HasId(stops, card.id) ==> r == stops + [card]
    ensures HasId(stops, card.id) ==> SubseqOf(r, stops) && forall c :: c in r <==> c in stops && c.id != card.id
  {
    if Find(stops, card.id).Some? then Without(stops, card.id)
    else
      assert (stops + [card])[|stops|].id == card.id;
      stops + [card]
  }

  /** Toggling a card that is not on the route, then toggling it again, restores the route. */
  lemma {:induction false} ToggleTwiceRestores(stops: seq<Card>, card: Card)
    requires !HasId(stops, card.id)
    ensures Toggled(Toggled(stops, card), card) == stops
  {
    FilterAppend(stops, [card], NotId(card.id));
    FilterKeepsAll(stops, NotId(card.id));
    assert Filter([card], NotId(card.id)) == [];
  }

  /** Toggling keeps the route free of duplicate ids. */
  lemma {:induction false} ToggleKeepsDistinctIds(stops: seq<Card>, card: Card)
    requires DistinctIds(stops)
    ensures DistinctIds(Toggled(stops, card))
  {
    if HasId(stops, card.id) {
      FilterKeepsDistinctIds(stops, NotId(card.id));
    }
  }

  /** `next.splice(i, 1)`. */
  function RemoveAt(s: seq<Card>, i: nat): (r: seq<Card>)
    requires i < |s|
    ensures |r| == |s| - 1
    ensures forall m | 0 <= m < |r| :: r[m] == if m < i then s[m] else s[m + 1]
    ensures multiset(r) + multiset{s[i]} == multiset(s)
  {
    assert s == s[..i] + [s[i]] + s[i + 1..];
    s[..i] + s[i + 1..]
  }

  /** `next.splice(j, 0, x)`. */
  function InsertAt(s: seq<Card>, j: nat, x: Card): (r: seq<Card>)
    requires j <= |s|
    ensures |r| == |s| + 1
    ensures forall m | 0 <= m < |r| :: r[m] == if m < j then s[m] else if m == j then x else s[m - 1]
    ensures multiset(r) == multiset(s) + multiset{x}
  {
    assert s == s[..j] + s[j..];
    s[..j] + [x] + s[j..]
  }

  /** Taking out what was just put in at `j` gives the list back. */
  lemma RemoveInserted(s: seq<Card>, j: nat, x: Card)
    requires j <= |s|
    ensures RemoveAt(InsertAt(s, j, x), j) == s
  {
    var r := RemoveAt(InsertAt(s, j, x), j);
    forall m | 0 <= m < |s| ensures r[m] == s[m] {
      assert r[m] == InsertAt(s, j, x)[if m < j then m else m + 1];
    }
  }

  /**
   * The `moveStop` updater: take the stop at `i` out and put it back at `j`. The result
   * is a permutation of the route with the moved stop at `j`, and with that stop taken
   * out again it is the route with the stop taken out: every other stop keeps its
   * relative order.
   */
  function Moved(s: seq<Card>, i: nat, j: nat): (r: seq<Card>)
    requires i < |s| && j < |s|
    ensures |r| == |s| && r[j] == s[i]
    ensures multiset(r) == multiset(s)
    ensures RemoveAt(r, j) == RemoveAt(s, i)
  {
    var rest := RemoveAt(s, i);
    RemoveInserted(rest, j, s[i]);
    InsertAt(rest, j, s[i])
  }

  // ---------------------------------------------------------------------------
  // The drawing session

  /** The path being traced from `fromStop` to `toStop`, seeded with `fromStop`'s position. */
  datatype Session = Session(key: string, fromStop: Card, toStop: Card, points: seq<Coord>)

  /** A live session keeps its seed point and its key names its two stops. */
  predicate SessionOk(d: Option<Session>) {
    d.Some? ==> |d.value.points| >= 1 && d.value.key == SegmentKey(d.value.fromStop, d.value.toStop)
  }

  /**
   * `startDrawing(i)`: for two stops at `i` and `i + 1`, a new session between them,
   * replacing any session already open; otherwise the session as it was.
   */
  function Started(stops: seq<Card>, i: int, d: Option<Session>): (r: Option<Session>)
    ensures 0 <= i && i + 1 < |stops| ==>
      r.Some? && r.value.fromStop == stops[i] && r.value.toStop == stops[i + 1]
      && r.value.key == SegmentKey(stops[i], stops[i + 1]) && r.value.points == [stops[i].coordinates]
    ensures !(0 <= i && i + 1 < |stops|) ==> r == d
    ensures SessionOk(d) ==> SessionOk(r)
  {
    if 0 <= i && i + 1 < |stops| then
      Some(Session(SegmentKey(stops[i], stops[i + 1]), stops[i], stops[i + 1], [stops[i].coordinates]))
    else d
  }

  /** The `addDrawingPoint` updater: exactly one point more at the end; nothing without a session. */
  function AddPoint(d: Option<Session>, p: Coord): (r: Option<Session>)
    ensures r.Some? <==> d.Some?
    ensures d.Some? ==>
      && r.value.key == d.value.key && r.value.fromStop == d.value.fromStop
      && r.value.toStop == d.value.toStop
      && |r.value.points| == |d.value.points| + 1
      && r.value.points[..|d.value.points|] == d.value.points
      && r.value.points[|d.value.points|] == p
    ensures SessionOk(d) ==> SessionOk(r)
  {
    match d
    case None => None
    case Some(s) => Some(s.(points := s.points + [p]))
  }

  /** The `undoDrawingPoint` updater: drops the last point only while more than the seed remains. */
  function UndoPoint(d: Option<Session>): (r: Option<Session>)
    ensures r.Some? <==> d.Some?
    ensures d.Some? && |d.value.points| > 1 ==>
      r.value.points == d.value.points[..|d.value.points| - 1]
      && r.value.key == d.value.key && r.value.fromStop == d.value.fromStop && r.value.toStop == d.value.toStop
    ensures d.Some? && |d.value.points| <= 1 ==> r == d
    ensures SessionOk(d) ==> SessionOk(r)
  {
    match d
    case None => None
    case Some(s) => if |s.points| <= 1 then d else Some(s.(points := s.points[..|s.points| - 1]))
  }

  /** Adding a point and undoing it gives back the session. */
  lemma AddThenUndo(d: Option<Session>, p: Coord)
    requires SessionOk(d)
    ensures UndoPoint(AddPoint(d, p)) == d
  {
    if d.Some? {
      assert (d.value.points + [p])[..|d.value.points|] == d.value.points;
    }
  }

  /**
   * The segments after `finishDrawing`: the session's points followed by the target
   * stop's position go under the session's key, every other key keeps its path; with
   * no session the store is unchanged.
   */
  function Finished(segments: Segments, d: Option<Session>): (r: Segments)
    ensures d.None? ==> r == segments
    ensures d.Some? ==> Get(r, d.value.key) == Some(d.value.points + [d.value.toStop.coordinates])
    ensures d.Some? ==> forall k | k != d.value.key :: Get(r, k) == Get(segments, k)
  {
    match d
    case None => segments
    case Some(s) => Put(segments, s.key, s.points + [s.toStop.coordinates])
  }

  /**
   * Drawing a segment end to end: start between stops `i` and `i + 1`, add two points,
   * finish; the store then holds the from-stop's position, the two points and the
   * to-stop's position under the pair's key.
   */
  lemma DrawTwoPointsAndFinish(stops: seq<Card>, i: nat, p1: Coord, p2: Coord, segments: Segments, d: Option<Session>)
    requires i + 1 < |stops|
    ensures Get(Finished(segments, AddPoint(AddPoint(Started(stops, i, d), p1), p2)), SegmentKey(stops[i], stops[i + 1]))
      == Some([stops[i].coordinates, p1, p2, stops[i + 1].coordinates])
  {
    var s0 := Started(stops, i, d);
    var s := AddPoint(AddPoint(s0, p1), p2);
    assert s.Some? && s.value.key == SegmentKey(stops[i], stops[i + 1]) && s.value.toStop == stops[i + 1];
    assert s.value.points == [stops[i].coordinates] + [p1] + [p2];
    assert s.value.points + [stops[i + 1].coordinates] == [stops[i].coordinates, p1, p2, stops[i + 1].coordinates];
  }

  /** Clearing the segment between the stops at `i` and `i + 1`; out of range nothing changes. */
  function SegmentCleared(stops: seq<Card>, segments: Segments, i: int): (r: Segments)
    ensures 0 <= i && i + 1 < |stops| ==>
      Get(r, SegmentKey(stops[i], stops[i + 1])).None?
      && (forall k | k != SegmentKey(stops[i], stops[i + 1]) :: Get(r, k) == Get(segments, k))
      && SubseqOf(r, segments)
    ensures !(0 <= i && i + 1 < |stops|) ==> r == segments
  {
    if 0 <= i && i + 1 < |stops| then Delete(segments, SegmentKey(stops[i], stops[i + 1]))
    else segments
  }

  /**
   * `a.splice(i, 1)` on an array whose last slot is then unused: the elements after
   * `i` move one place left.
   */
  method SpliceOut(a: array<Card>, i: nat)
    requires i < a.Length
    modifies a
    ensures a[..a.Length - 1] == RemoveAt(old(a[..]), i)
  {
    var k := i;
    while k < a.Length - 1
      invariant i <= k <= a.Length - 1
      invariant forall m | 0 <= m < i :: a[m] == old(a[m])
      invariant forall m | i <= m < k :: a[m] == old(a[m + 1])
      invariant forall m | k < m < a.Length :: a[m] == old(a[m])
    {
      a[k] := a[k + 1];
      k := k + 1;
    }
    ghost var rest := RemoveAt(old(a[..]), i);
    forall m | 0 <= m < a.Length - 1 ensures a[..a.Length - 1][m] == rest[m] {
      assert rest[m] == if m < i then old(a[..])[m] else old(a[..])[m + 1];
    }
  }

  /**
   * `a.splice(j, 0, x)` on an array whose last slot is unused: the elements from `j`
   * move one place right and `x` goes in at `j`.
   */
  method SpliceIn(a: array<Card>, j: nat, x: Card)
    requires j < a.Length
    modifies a
    ensures a[..] == InsertAt(old(a[..a.Length - 1]), j, x)
  {
    ghost var rest := old(a[..a.Length - 1]);
    var k := a.Length - 1;
    while k > j
      invariant j <= k <= a.Length - 1
      invariant forall m | 0 <= m < k :: a[m] == rest[m]
      invariant forall m | k < m < a.Length :: a[m] == rest[m - 1]
    {
      a[k] := a[k - 1];
      k := k - 1;
    }
    a[j] := x;
    ghost var r := InsertAt(rest, j, x);
    forall m | 0 <= m < a.Length ensures a[..][m] == r[m] {
      assert r[m] == if m < j then rest[m] else if m == j then x else rest[m - 1];
    }
  }

  // ---------------------------------------------------------------------------
  // The hook's state

  class RouteState {
    var stops: seq<Card>
    var segments: Segments
    var drawing: Option<Session>

    ghost predicate Valid()
      reads this
    {
      DistinctKeys(segments) && SessionOk(drawing)
    }

    /** The state the hook starts from: the stored stops and segments, no drawing. */
    constructor (initialStops: seq<Card>, initialSegments: Segments)
      requires DistinctKeys(initialSegments)
      ensures Valid()
      ensures stops == initialStops && segments == initialSegments && drawing == None
    {
      stops := initialStops;
      segments := initialSegments;
      drawing := None;
    }

    method ToggleStop(card: Card)
      requires Valid()
      modifies this
      ensures Valid()
      ensures stops == Toggled(old(stops), card)
      ensures segments == old(segments) && drawing == old(drawing)
    {
      stops := Toggled(stops, card);
    }

    method RemoveStop(cardId: string)
      requires Valid()
      modifies this
      ensures Valid()
      ensures stops == Without(old(stops), cardId)
      ensures !HasId(stops, cardId) && SubseqOf(stops, old(stops))
      ensures segments == old(segments) && drawing == old(drawing)
    {
      stops := Without(stops, cardId);
    }

    /**
     * `moveStop`: the two splices on a copy of the list. The stop list only offers
     * moves between positions that exist.
     */
    method MoveStop(fromIndex: int, toIndex: int)
      requires Valid()
      requires 0 <= fromIndex < |stops| && 0 <= toIndex < |stops|
      modifies this
      ensures Valid()
      ensures stops == Moved(old(stops), fromIndex, toIndex)
      ensures segments == old(segments) && drawing == old(drawing)
    {
      var s := stops;
      var next := new Card[|s|](m requires 0 <= m < |s| => s[m]);
      assert next[..] == s;
      var moved := next[fromIndex];
      SpliceOut(next, fromIndex);
      SpliceIn(next, toIndex, moved);
      stops := next[..];
    }

    method ClearStops()
      requires Valid()
      modifies this
      ensures Valid()
      ensures stops == [] && segments == [] && drawing == None
    {
      stops := [];
      segments := [];
      drawing := None;
    }

    /** `isInRoute`: whether some stop carries the id. */
    method IsInRoute(cardId: string) returns (b: bool)
      ensures b <==> exists i | 0 <= i < |stops| :: stops[i].id == cardId
    {
      b := Find(stops, cardId).Some?;
    }

    method StartDrawing(segIndex: int)
      requires Valid()
      modifies this
      ensures Valid()
      ensures drawing == Started(stops, segIndex, old(drawing))
      ensures stops == old(stops) && segments == old(segments)
    {
      drawing := Started(stops, segIndex, drawing);
    }

    method AddDrawingPoint(p: Coord)
      requires Valid()
      modifies this
      ensures Valid()
      ensures drawing == AddPoint(old(drawing), p)
      ensures stops == old(stops) && segments == old(segments)
    {
      drawing := AddPoint(drawing, p);
    }

    method UndoDrawingPoint()
      requires Valid()
      modifies this
      ensures Valid()
      ensures drawing == UndoPoint(old(drawing))
      ensures stops == old(stops) && segments == old(segments)
    {
      drawing := UndoPoint(drawing);
    }

    method FinishDrawing()
      requires Valid()
      modifies this
      ensures Valid()
      ensures segments == Finished(old(segments), old(drawing))
      ensures drawing == None && stops == old(stops)
    {
      if drawing.Some? {
        PutKeepsDistinctKeys(segments, drawing.value.key, drawing.value.points + [drawing.value.toStop.coordinates]);
      }
      segments := Finished(segments, drawing);
      drawing := None;
    }

    method CancelDrawing()
      requires Valid()
      modifies this
      ensures Valid()
      ensures drawing == None && stops == old(stops) && segments == old(segments)
    {
      drawing := None;
    }

    method ClearSegment(segIndex: int)
      requires Valid()
      modifies this
      ensures Valid()
      ensures segments == SegmentCleared(stops, old(segments), segIndex)
      ensures stops == old(stops) && drawing == old(drawing)
    {
      if 0 <= segIndex && segIndex + 1 < |stops| {
        DeleteKeepsDistinctKeys(segments, SegmentKey(stops[segIndex], stops[segIndex + 1]));
      }
      segments := SegmentCleared(stops, segments, segIndex);
    }
  }
}
