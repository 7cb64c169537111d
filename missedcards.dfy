/**
 * The missed-cards layer: the catalogue cards that were not collected, and for each
 * of them the closest point of the drawn route, found by gathering every point of
 * every path (of the selected day only, when a day is selected) and keeping the
 * first one at the least distance.
 */
module MissedCards {
  import opened Cards
  import opened SegmentMap
  import opened Route
  import opened WalkingStats

  /** A card is missed only when its flag is explicitly `false`. */
  predicate IsMissed(c: Card) {
    c.collected == Some(false)
  }

  /** `cards.filter((c) => c.collected === false)`. */
  function MissedCardsOf(cards: seq<Card>): (r: seq<Card>)
    ensures forall c :: c in r <==> c in cards && c.collected == Some(false)
    ensures SubseqOf(r, cards)
  {
    Filter(cards, IsMissed)
  }

  /** Every card is either missed or counted as collected, never both. */
  lemma MissedOrCollected(cards: seq<Card>, c: Card)
    requires c in cards
    ensures c in MissedCardsOf(cards) <==> c !in CollectedCards(cards)
  {
  }

  // ---------------------------------------------------------------------------
  // Splitting a segment key

  /** `s.split("::")`: the pieces between the occurrences of `"::"`, found from the left. */
  function SplitSep(s: string): (r: seq<string>)
    ensures |r| >= 1
  {
    if |s| < 2 then [s]
    else if s[0] == ':' && s[1] == ':' then [""] + SplitSep(s[2..])
    else
      var rest := SplitSep(s[1..]);
      [[s[0]] + rest[0]] + rest[1..]
  }

  predicate NoSep(s: string) {
    forall i | 0 <= i < |s| - 1 :: !(s[i] == ':' && s[i + 1] == ':')
  }

  /** A string without `"::"` is not split. */
  lemma {:induction false} SplitNoSep(s: string)
    requires NoSep(s)
    ensures SplitSep(s) == [s]
  {
    if |s| >= 2 {
      assert NoSep(s[1..]) by {
        forall i | 0 <= i < |s[1..]| - 1 ensures !(s[1..][i] == ':' && s[1..][i + 1] == ':') {
          assert s[1..][i] == s[i + 1] && s[1..][i + 1] == s[i + 2];
        }
      }
      SplitNoSep(s[1..]);
      assert [s[0]] + s[1..] == s;
    }
  }

  /** The first occurrence of `"::"` after a piece that has none and does not end in `':'` splits there. */
  lemma {:induction false} SplitAfter(a: string, b: string)
    requires NoSep(a) && (|a| == 0 || a[|a| - 1] != ':')
    ensures SplitSep(a + "::" + b) == [a] + SplitSep(b)
  {
    var s := a + "::" + b;
    if |a| == 0 {
      assert s[2..] == b;
    } else {
      assert s[0] == a[0];
      if |a| == 1 {
        assert s[1] == ':' && s[2] == ':';
        assert s[1..] == "::" + b;
        assert ("::" + b)[2..] == b;
      } else {
        assert !(s[0] == ':' && s[1] == ':');
      }
      var a' := a[1..];
      assert NoSep(a') by {
        forall i | 0 <= i < |a'| - 1 ensures !(a'[i] == ':' && a'[i + 1] == ':') {
          assert a'[i] == a[i + 1] && a'[i + 1] == a[i + 2];
        }
      }
      assert s[1..] == a' + "::" + b;
      SplitAfter(a', b);
      assert [a[0]] + a' == a;
    }
  }

  /**
   * Splitting a key written by `segmentKey` gives back the two ids, when neither id
   * contains `"::"` and the first does not end in `':'`.
   */
  lemma SplitSegmentKey(a: Card, b: Card)
    requires NoSep(a.id) && (|a.id| == 0 || a.id[|a.id| - 1] != ':') && NoSep(b.id)
    ensures SplitSep(SegmentKey(a, b)) == [a.id, b.id]
  {
    SplitAfter(a.id, b.id);
    SplitNoSep(b.id);
  }

  /** An id ending in `':'` is not recovered: `"x:" + "::" + "y"` splits as `"x"` and `":y"`. */
  lemma SplitSegmentKeyColon()
    ensures SplitSep("x:" + "::" + "y") == ["x", ":y"]
  {
    assert "x:" + "::" + "y" == "x:::y";
    assert SplitSep("y") == ["y"];
    assert ":y"[1..] == "y";
    assert SplitSep(":y") == [[':'] + "y"];
    assert [':'] + "y" == ":y";
    assert ":::y"[2..] == ":y";
    assert SplitSep(":::y") == ["", ":y"];
    assert "x:::y"[1..] == ":::y";
    assert SplitSep("x:::y") == [['x'] + ""] + [":y"];
    assert ['x'] + "" == "x";
  }

  /**
   * Under the same conditions, different pairs of ids get different keys, so a key
   * names the path between one pair of stops.
   */
  lemma SegmentKeyInjective(a: Card, b: Card, c: Card, d: Card)
    requires NoSep(a.id) && (|a.id| == 0 || a.id[|a.id| - 1] != ':') && NoSep(b.id)
    requires NoSep(c.id) && (|c.id| == 0 || c.id[|c.id| - 1] != ':') && NoSep(d.id)
    requires SegmentKey(a, b) == SegmentKey(c, d)
    ensures a.id == c.id && b.id == d.id
  {
    SplitSegmentKey(a, b);
    SplitSegmentKey(c, d);
  }

  /** `const [fromId] = key.split("::")`. */
  function FromId(key: string): string {
    SplitSep(key)[0]
  }

  /** `const [, toId] = key.split("::")`: `None` stands for `undefined`. */
  function ToId(key: string): Option<string> {
    var pieces := SplitSep(key);
    if |pieces| >= 2 then Some(pieces[1]) else None
  }

  /**
   * With no day selected every path takes part; with a day selected, only a path
   * whose two ends are both stops of the route, one of them on that day.
   */
  predicate Contributes(key: string, selectedDay: Option<int>, stops: seq<Card>) {
    match selectedDay
    case None => true
    case Some(day) =>
      var fromStop := Find(stops, FromId(key));
      var toStop := if ToId(key).Some? then Find(stops, ToId(key).value) else None;
      && fromStop.Some? && toStop.Some?
      && (fromStop.value.collectionDay == day || toStop.value.collectionDay == day)
  }

  /** The day a gathered point is tagged with: that of the stop the path starts at, if it is a stop. */
  function FromDay(key: string, stops: seq<Card>): Option<int> {
    match Find(stops, FromId(key))
    case Some(s) => Some(s.collectionDay)
    case None => None
  }

  /** For a key written by `segmentKey` from two stops of the route, the filter and the tag read the two stops' days. */
  lemma ContributesSegmentKey(stops: seq<Card>, i: nat, j: nat, selectedDay: Option<int>)
    requires DistinctIds(stops) && i < |stops| && j < |stops|
    requires NoSep(stops[i].id) && (|stops[i].id| == 0 || stops[i].id[|stops[i].id| - 1] != ':')
    requires NoSep(stops[j].id)
    ensures FromDay(SegmentKey(stops[i], stops[j]), stops) == Some(stops[i].collectionDay)
    ensures Contributes(SegmentKey(stops[i], stops[j]), selectedDay, stops) <==>
      selectedDay.None? || stops[i].collectionDay == selectedDay.value || stops[j].collectionDay == selectedDay.value
  {
    SplitSegmentKey(stops[i], stops[j]);
    FindMember(stops, i);
    FindMember(stops, j);
  }

  // ---------------------------------------------------------------------------
  // The closest approach

  datatype TaggedPoint = TaggedPoint(at: Coord, day: Option<int>)

  /** `points.forEach((pt) => allPoints.push({ lat, lon, day }))`. */
  function Tagged(points: seq<Coord>, day: Option<int>): (r: seq<TaggedPoint>)
    ensures |r| == |points|
    ensures forall k | 0 <= k < |points| :: r[k] == TaggedPoint(points[k], day)
  {
    if |points| == 0 then []
    else Tagged(points[..|points| - 1], day) + [TaggedPoint(points[|points| - 1], day)]
  }

  /** Every point of every taking-part path, in store order and then path order. */
  function Gathered(segments: Segments, selectedDay: Option<int>, stops: seq<Card>): seq<TaggedPoint> {
    if |segments| == 0 then []
    else
      var last := segments[|segments| - 1];
      Gathered(segments[..|segments| - 1], selectedDay, stops)
        + (if Contributes(last.key, selectedDay, stops) then Tagged(last.points, FromDay(last.key, stops)) else [])
  }

  /** Only points of paths that take part are gathered, tagged with their path's day. */
  lemma {:induction false} GatheredFrom(segments: Segments, selectedDay: Option<int>, stops: seq<Card>, p: TaggedPoint)
    requires p in Gathered(segments, selectedDay, stops)
    ensures exists j | 0 <= j < |segments| ::
      && Contributes(segments[j].key, selectedDay, stops)
      && p.at in segments[j].points
      && p.day == FromDay(segments[j].key, stops)
  {
    var n := |segments|;
    var last := segments[n - 1];
    var front := Gathered(segments[..n - 1], selectedDay, stops);
    if p in front {
      GatheredFrom(segments[..n - 1], selectedDay, stops, p);
      var j :| 0 <= j < n - 1 && Contributes(segments[..n - 1][j].key, selectedDay, stops)
        && p.at in segments[..n - 1][j].points && p.day == FromDay(segments[..n - 1][j].key, stops);
      assert segments[..n - 1][j] == segments[j];
    } else {
      var tagged := Tagged(last.points, FromDay(last.key, stops));
      assert Contributes(last.key, selectedDay, stops) && p in tagged;
      var k :| 0 <= k < |tagged| && tagged[k] == p;
      assert p.at == last.points[k];
    }
  }

  /**
   * Every point of a path that takes part is gathered, tagged with its path's day; with
   * no day selected, every path takes part.
   */
  lemma {:induction false} GatheredAll(segments: Segments, selectedDay: Option<int>, stops: seq<Card>, j: nat, k: nat)
    requires j < |segments| && k < |segments[j].points|
    requires Contributes(segments[j].key, selectedDay, stops)
    ensures TaggedPoint(segments[j].points[k], FromDay(segments[j].key, stops)) in Gathered(segments, selectedDay, stops)
  {
    var n := |segments|;
    if j < n - 1 {
      assert segments[..n - 1][j] == segments[j];
      GatheredAll(segments[..n - 1], selectedDay, stops, j, k);
    } else {
      var tagged := Tagged(segments[j].points, FromDay(segments[j].key, stops));
      assert tagged[k] in tagged;
    }
  }

  lemma TaggedPrefix(points: seq<Coord>, k: nat, day: Option<int>)
    requires k < |points|
    ensures Tagged(points[..k + 1], day) == Tagged(points[..k], day) + [TaggedPoint(points[k], day)]
  {
    assert points[..k + 1][..k] == points[..k];
  }

  /** The first `Object.entries(segments).forEach`, pushing onto `allPoints`. */
  method GatherPoints(segments: Segments, selectedDay: Option<int>, stops: seq<Card>)
    returns (allPoints: seq<TaggedPoint>)
    ensures allPoints == Gathered(segments, selectedDay, stops)
  {
    allPoints := [];
    var j := 0;
    while j < |segments|
      invariant 0 <= j <= |segments|
      invariant allPoints == Gathered(segments[..j], selectedDay, stops)
    {
      assert segments[..j + 1][..j] == segments[..j];
      var key := segments[j].key;
      var points := segments[j].points;
      if Contributes(key, selectedDay, stops) {
        var day := FromDay(key, stops);
        var k := 0;
        while k < |points|
          invariant 0 <= k <= |points|
          invariant allPoints == Gathered(segments[..j], selectedDay, stops) + Tagged(points[..k], day)
        {
          TaggedPrefix(points, k, day);
          ConcatAssoc(Gathered(segments[..j], selectedDay, stops), Tagged(points[..k], day), [TaggedPoint(points[k], day)]);
          allPoints := allPoints + [TaggedPoint(points[k], day)];
          k := k + 1;
        }
        assert points[..k] == points;
      }
      j := j + 1;
    }
    assert segments[..j] == segments;
  }

  /** What `findClosestApproach` returns when it finds a point. */
  datatype Approach = Approach(distance: real, day: Option<int>)

  /**
   * `findClosestApproach`: `None` (null) when no point was gathered; otherwise the
   * least distance from the card to a gathered point, and the day of the first
   * gathered point at that distance. `dist` is the distance on the globe.
   */
  method FindClosestApproach(card: Card, segments: Segments, selectedDay: Option<int>, stops: seq<Card>,
                             dist: (Coord, Coord) -> real)
    returns (r: Option<Approach>)
    ensures var all := Gathered(segments, selectedDay, stops);
      && (r.None? <==> |all| == 0)
      && (r.Some? ==>
            && (forall i | 0 <= i < |all| :: r.value.distance <= dist(card.coordinates, all[i].at))
            && exists k | 0 <= k < |all| ::
                 && r.value.distance == dist(card.coordinates, all[k].at)
                 && r.value.day == all[k].day
                 && forall i | 0 <= i < k :: dist(card.coordinates, all[i].at) > r.value.distance)
  {
    var allPoints := GatherPoints(segments, selectedDay, stops);
    if |allPoints| == 0 {
      return None;
    }
    // `minDist` starts at `Infinity`, written `None` here.
    var minDist: Option<real> := None;
    var closestDay: Option<int> := None;
    ghost var best := 0;
    var i := 0;
    while i < |allPoints|
      invariant 0 <= i <= |allPoints|
      invariant minDist.None? <==> i == 0
      invariant minDist.Some? ==>
        && 0 <= best < i
        && minDist.value == dist(card.coordinates, allPoints[best].at)
        && closestDay == allPoints[best].day
        && (forall m | 0 <= m < i :: minDist.value <= dist(card.coordinates, allPoints[m].at))
        && (forall m | 0 <= m < best :: dist(card.coordinates, allPoints[m].at) > minDist.value)
    {
      var d := dist(card.coordinates, allPoints[i].at);
      if minDist.None? || d < minDist.value {
        minDist := Some(d);
        closestDay := allPoints[i].day;
        best := i;
      }
      i := i + 1;
    }
    r := Some(Approach(minDist.value, closestDay));
  }
}
