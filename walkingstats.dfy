/**
 * The per-day walking summary: the collection days of the catalogue, and for each
 * day the distance walked along the route's stops of that day, the time and the
 * number of steps it takes.
 */
module WalkingStats {
  import opened Cards
  import opened Route

  const WalkSpeedKmh: real := 5.0
  const StepsPerKm: real := 1300.0

  /** A card counts as collected unless its flag is explicitly `false`. */
  predicate IsCollected(c: Card) {
    c.collected != Some(false)
  }

  /** `manholeCards.filter((c) => c.collected !== false)`. */
  function CollectedCards(catalogue: seq<Card>): (r: seq<Card>)
    ensures forall c :: c in r <==> c in catalogue && c.collected != Some(false)
    ensures SubseqOf(r, catalogue)
  {
    Filter(catalogue, IsCollected)
  }

  predicate StrictlyIncreasing(s: seq<int>) {
    forall i, j | 0 <= i < j < |s| :: s[i] < s[j]
  }

  /** Puts `x` into its place in an increasing list, unless it is already there. */
  function InsertSorted(x: int, s: seq<int>): (r: seq<int>)
    requires StrictlyIncreasing(s)
    ensures StrictlyIncreasing(r)
    ensures forall y :: y in r <==> y == x || y in s
  {
    if |s| == 0 then [x]
    else if x < s[0] then [x] + s
    else if x == s[0] then s
    else
      var rest := InsertSorted(x, s[1..]);
      assert forall y :: y in s <==> y == s[0] || y in s[1..];
      assert forall i | 0 <= i < |rest| :: s[0] < rest[i] by {
        forall i | 0 <= i < |rest| ensures s[0] < rest[i] {
          assert rest[i] in rest;
          if rest[i] != x {
            var k :| 0 <= k < |s| - 1 && s[1..][k] == rest[i];
            assert s[k + 1] == rest[i];
          }
        }
      }
      [s[0]] + rest
  }

  /** Some card of `cards` was collected on `day`. */
  predicate HasDay(cards: seq<Card>, day: int) {
    exists i | 0 <= i < |cards| :: cards[i].collectionDay == day
  }

  /** `[...new Set(cards.map((c) => c.collectionDay))].sort((a, b) => a - b)`. */
  function SortedDays(cards: seq<Card>): (r: seq<int>)
    ensures StrictlyIncreasing(r)
    ensures forall d :: d in r <==> HasDay(cards, d)
  {
    if |cards| == 0 then []
    else
      var rest := SortedDays(cards[1..]);
      assert forall d :: HasDay(cards, d) <==> d == cards[0].collectionDay || HasDay(cards[1..], d) by {
        forall d | HasDay(cards, d) ensures d == cards[0].collectionDay || HasDay(cards[1..], d) {
          var i :| 0 <= i < |cards| && cards[i].collectionDay == d;
          if i > 0 { assert cards[1..][i - 1].collectionDay == d; }
        }
        forall d | HasDay(cards[1..], d) ensures HasDay(cards, d) {
          var i :| 0 <= i < |cards| - 1 && cards[1..][i].collectionDay == d;
          assert cards[i + 1].collectionDay == d;
        }
      }
      InsertSorted(cards[0].collectionDay, rest)
  }

  /**
   * The module-level `days`: every day on which some collected card of the
   * catalogue was collected, each once, in increasing order.
   */
  function Days(catalogue: seq<Card>): (r: seq<int>)
    ensures StrictlyIncreasing(r)
    ensures forall d :: d in r <==>
      exists i | 0 <= i < |catalogue| :: catalogue[i].collected != Some(false) && catalogue[i].collectionDay == d
  {
    var collected := CollectedCards(catalogue);
    var r := SortedDays(collected);
    forall d ensures d in r <==>
      exists i | 0 <= i < |catalogue| :: catalogue[i].collected != Some(false) && catalogue[i].collectionDay == d
    {
      if d in r {
        var k :| 0 <= k < |collected| && collected[k].collectionDay == d;
        assert collected[k] in catalogue;
      }
      if exists i | 0 <= i < |catalogue| :: catalogue[i].collected != Some(false) && catalogue[i].collectionDay == d {
        var i :| 0 <= i < |catalogue| && catalogue[i].collected != Some(false) && catalogue[i].collectionDay == d;
        assert catalogue[i] in collected;
        var k :| 0 <= k < |collected| && collected[k] == catalogue[i];
      }
    }
    r
  }

  function OnDay(day: int): Card -> bool {
    (c: Card) => c.collectionDay == day
  }

  /** `stops.filter((s) => s.collectionDay === day)`: the route's stops of one day, in route order. */
  function DayStops(stops: seq<Card>, day: int): (r: seq<Card>)
    ensures forall c :: c in r <==> c in stops && c.collectionDay == day
    ensures SubseqOf(r, stops)
  {
    Filter(stops, OnDay(day))
  }

  /** The distance recorded for the path from `a` to `b`; a path with no recorded distance counts 0. */
  function Leg(a: Card, b: Card, segmentDistances: map<string, real>): real {
    var key := SegmentKey(a, b);
    if key in segmentDistances then segmentDistances[key] else 0.0
  }

  predicate AllNonNegative(segmentDistances: map<string, real>) {
    forall k | k in segmentDistances :: segmentDistances[k] >= 0.0
  }

  /** The sum of the legs between consecutive stops of `s`. */
  function PairSum(s: seq<Card>, segmentDistances: map<string, real>): (r: real)
    ensures |s| < 2 ==> r == 0.0
    ensures AllNonNegative(segmentDistances) ==> r >= 0.0
  {
    if |s| < 2 then 0.0
    else PairSum(s[..|s| - 1], segmentDistances) + Leg(s[|s| - 2], s[|s| - 1], segmentDistances)
  }

  /** Joining two routes adds the leg between the last stop of the first and the first stop of the second. */
  lemma {:induction false} PairSumAppend(s: seq<Card>, t: seq<Card>, segmentDistances: map<string, real>)
    requires |s| > 0 && |t| > 0
    ensures PairSum(s + t, segmentDistances)
      == PairSum(s, segmentDistances) + Leg(s[|s| - 1], t[0], segmentDistances) + PairSum(t, segmentDistances)
  {
    if |t| == 1 {
      assert (s + t)[..|s + t| - 1] == s;
    } else {
      var t' := t[..|t| - 1];
      assert (s + t)[..|s + t| - 1] == s + t';
      assert t'[0] == t[0];
      PairSumAppend(s, t', segmentDistances);
      assert t[..|t| - 1] == t';
    }
  }

  /** When none of the route's paths has a recorded distance, the day's distance is 0. */
  lemma {:induction false} PairSumNoPaths(s: seq<Card>, segmentDistances: map<string, real>)
    requires forall i | 0 <= i < |s| - 1 :: SegmentKey(s[i], s[i + 1]) !in segmentDistances
    ensures PairSum(s, segmentDistances) == 0.0
  {
    if |s| >= 2 {
      PairSumNoPaths(s[..|s| - 1], segmentDistances);
    }
  }

  /** The `for` loop over consecutive pairs of one day's stops. */
  method DayDistance(dayStops: seq<Card>, segmentDistances: map<string, real>) returns (distance: real)
    ensures distance == PairSum(dayStops, segmentDistances)
  {
    distance := 0.0;
    var i := 0;
    while i < |dayStops| - 1
      invariant 0 <= i <= if |dayStops| == 0 then 0 else |dayStops| - 1
      invariant |dayStops| == 0 ==> distance == 0.0
      invariant |dayStops| > 0 ==> distance == PairSum(dayStops[..i + 1], segmentDistances)
    {
      assert dayStops[..i + 2][..i + 1] == dayStops[..i + 1];
      var key := SegmentKey(dayStops[i], dayStops[i + 1]);
      if key in segmentDistances {
        distance := distance + segmentDistances[key];
      }
      i := i + 1;
    }
    if |dayStops| > 0 {
      assert dayStops[..i + 1] == dayStops;
    }
  }

  /** One entry of `dayStats`. */
  datatype DayStat = DayStat(day: int, distance: real, timeMinutes: real, steps: int, cards: nat)

  /** `Math.round(x)`: the nearest integer, halves rounded up. */
  function Round(x: real): (n: int)
    ensures n as real - 0.5 <= x < n as real + 0.5
  {
    (x + 0.5).Floor
  }

  /**
   * `days.map(...)`: one entry per day, in the order of `days`, holding the number
   * of that day's stops, its distance, and the time and steps derived from it.
   */
  method DayStats(days: seq<int>, stops: seq<Card>, segmentDistances: map<string, real>)
    returns (stats: seq<DayStat>)
    ensures |stats| == |days|
    ensures forall i | 0 <= i < |days| ::
      && stats[i].day == days[i]
      && stats[i].cards == |DayStops(stops, days[i])|
      && stats[i].distance == PairSum(DayStops(stops, days[i]), segmentDistances)
      && stats[i].timeMinutes == stats[i].distance / WalkSpeedKmh * 60.0
      && stats[i].steps == Round(stats[i].distance * StepsPerKm)
  {
    stats := [];
    var i := 0;
    while i < |days|
      invariant 0 <= i <= |days|
      invariant |stats| == i
      invariant forall k | 0 <= k < i ::
        && stats[k].day == days[k]
        && stats[k].cards == |DayStops(stops, days[k])|
        && stats[k].distance == PairSum(DayStops(stops, days[k]), segmentDistances)
        && stats[k].timeMinutes == stats[k].distance / WalkSpeedKmh * 60.0
        && stats[k].steps == Round(stats[k].distance * StepsPerKm)
    {
      var day := days[i];
      var dayStops := DayStops(stops, day);
      var distance := DayDistance(dayStops, segmentDistances);
      var timeMinutes := distance / WalkSpeedKmh * 60.0;
      var steps := Round(distance * StepsPerKm);
      stats := stats + [DayStat(day, distance, timeMinutes, steps, |dayStops|)];
      i := i + 1;
    }
  }

  /** `dayStats.some((d) => d.distance > 0)`: the chart is shown only when this holds. */
  function HasAnyRoute(stats: seq<DayStat>): (b: bool)
    ensures b <==> exists i | 0 <= i < |stats| :: stats[i].distance > 0.0
  {
    if |stats| == 0 then false
    else if stats[0].distance > 0.0 then true
    else
      var b := HasAnyRoute(stats[1..]);
      assert b ==> exists i | 0 <= i < |stats| :: stats[i].distance > 0.0 by {
        if b {
          var i :| 0 <= i < |stats| - 1 && stats[1..][i].distance > 0.0;
          assert stats[i + 1].distance > 0.0;
        }
      }
      assert (exists i | 0 <= i < |stats| :: stats[i].distance > 0.0) ==> b by {
        if exists i | 0 <= i < |stats| :: stats[i].distance > 0.0 {
          var i :| 0 <= i < |stats| && stats[i].distance > 0.0;
          assert stats[1..][i - 1].distance > 0.0;
        }
      }
      b
  }
}
