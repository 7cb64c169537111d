/**
 * Sharing and exporting a route: the payload a share link carries, reading such a
 * link back, and the GPX 1.1 document written for download.
 */
module Share {
  import opened Cards
  import opened SegmentMap
  import opened Json
  import opened Route

  // ---------------------------------------------------------------------------
  // The share link

  function CoordJson(c: Coord): Json {
    JArr([JNum(c.lat), JNum(c.lon)])
  }

  function PointsJson(ps: seq<Coord>): (r: seq<Json>)
    ensures |r| == |ps| && forall i | 0 <= i < |ps| :: r[i] == CoordJson(ps[i])
  {
    seq(|ps|, i requires 0 <= i < |ps| => CoordJson(ps[i]))
  }

  /** The segment store as the JSON object `JSON.stringify` writes: one member per key, in order. */
  function SegmentsJson(m: Segments): (j: Json)
    ensures j.JObj? && |j.fields| == |m|
    ensures forall i | 0 <= i < |m| :: j.fields[i] == (m[i].key, JArr(PointsJson(m[i].points)))
  {
    JObj(seq(|m|, i requires 0 <= i < |m| => (m[i].key, JArr(PointsJson(m[i].points)))))
  }

  /** Different segment stores are written as different JSON objects. */
  lemma SegmentsJsonInjective(a: Segments, b: Segments)
    requires SegmentsJson(a) == SegmentsJson(b)
    ensures a == b
  {
    assert |a| == |b|;
    forall i | 0 <= i < |a| ensures a[i] == b[i] {
      assert SegmentsJson(a).fields[i] == SegmentsJson(b).fields[i];
      var pa, pb := PointsJson(a[i].points), PointsJson(b[i].points);
      assert pa == pb;
      assert |a[i].points| == |b[i].points|;
      forall k | 0 <= k < |a[i].points| ensures a[i].points[k] == b[i].points[k] {
        assert pa[k] == pb[k];
      }
    }
  }

  /**
   * `{ s: stops.map((s) => s.id), g: segments }`: an object whose `s` member holds the
   * stop ids in route order and whose `g` member holds the segment object.
   */
  function Payload(stops: seq<Card>, segments: Segments): (r: Json)
    ensures HasStopList(r)
    ensures Field(r.fields, "s") == Some(JArr(StopIds(stops)))
    ensures Field(r.fields, "g") == Some(SegmentsJson(segments))
  {
    JObj([("s", JArr(StopIds(stops))), ("g", SegmentsJson(segments))])
  }

  /** `encodeRouteData`: the payload through the text codec (JSON, URI encoding, base64). */
  function EncodeRouteData(stops: seq<Card>, segments: Segments, serialise: Json -> string): string {
    serialise(Payload(stops, segments))
  }

  /** `hash.startsWith("#") ? hash.slice(1) : hash`: at most one leading `#` goes. */
  function StripHash(hash: string): (r: string)
    ensures |hash| > 0 && hash[0] == '#' ==> r == hash[1..]
    ensures !(|hash| > 0 && hash[0] == '#') ==> r == hash
  {
    if |hash| > 0 && hash[0] == '#' then hash[1..] else hash
  }

  /** A parsed payload the decoder accepts: an object whose `s` member is an array. */
  predicate HasStopList(j: Json) {
    j.JObj? && Field(j.fields, "s").Some? && Field(j.fields, "s").value.JArr?
  }

  /** What a share link yields: the resolved stops and the `g` member as parsed. */
  datatype RouteData = RouteData(stops: seq<Card>, segments: Json)

  /**
   * `decodeRouteData`: `null` (here `None`) when nothing follows the `#`, when the
   * text does not decode or parse (the `catch` branch), or when the parsed value has
   * no array `s`; otherwise the catalogue cards for the ids in `s`, in `s` order, and
   * `g`, or `{}` when `g` is missing or falsy.
   */
  function DecodeRouteData(hash: string, parse: string -> Option<Json>, catalogue: seq<Card>): (r: Option<RouteData>)
    ensures StripHash(hash) == "" ==> r.None?
    ensures r.Some? <==>
      StripHash(hash) != "" && parse(StripHash(hash)).Some? && HasStopList(parse(StripHash(hash)).value)
    ensures r.Some? ==> forall c :: c in r.value.stops ==> c in catalogue
    ensures r.Some? ==>
      var data := parse(StripHash(hash)).value;
      var g := Field(data.fields, "g");
      && r.value.stops == ResolveIds(Field(data.fields, "s").value.items, catalogue)
      && (g.Some? && Truthy(g.value) ==> r.value.segments == g.value)
      && (!(g.Some? && Truthy(g.value)) ==> r.value.segments == JObj([]))
  {
    var raw := StripHash(hash);
    if raw == "" then None
    else
      match parse(raw)
      case Some(data) =>
        if !HasStopList(data) then None
        else
          var g := Field(data.fields, "g");
          Some(RouteData(
            ResolveIds(Field(data.fields, "s").value.items, catalogue),
            if g.Some? && Truthy(g.value) then g.value else JObj([])))
      case None => None
  }

  /**
   * A parsed payload without a `g` member decodes to an empty segment object, and the
   * decoded stops are those the `s` ids resolve to.
   */
  lemma DecodeMissingSegments(hash: string, parse: string -> Option<Json>, catalogue: seq<Card>, fields: seq<(string, Json)>, ids: seq<Json>)
    requires StripHash(hash) != "" && parse(StripHash(hash)) == Some(JObj(fields))
    requires Field(fields, "s") == Some(JArr(ids)) && Field(fields, "g").None?
    ensures DecodeRouteData(hash, parse, catalogue) == Some(RouteData(ResolveIds(ids, catalogue), JObj([])))
  {
  }

  /**
   * Round trip of a share link: reading `#` followed by the encoded route gives back the
   * same stops, in order, and the same segment object, when every stop is a catalogue
   * card, the catalogue's identifiers are distinct, and the codec reads back the text
   * written for the payload.
   */
  lemma DecodeEncodedRoute(stops: seq<Card>, segments: Segments, serialise: Json -> string,
                           parse: string -> Option<Json>, catalogue: seq<Card>)
    requires RoundTrips(serialise, parse, Payload(stops, segments))
    requires DistinctIds(catalogue)
    requires forall c | c in stops :: c in catalogue
    ensures DecodeRouteData("#" + EncodeRouteData(stops, segments, serialise), parse, catalogue)
      == Some(RouteData(stops, SegmentsJson(segments)))
  {
    var p := Payload(stops, segments);
    var hash := "#" + serialise(p);
    assert StripHash(hash) == serialise(p);
    ResolveStopIds(stops, catalogue);
  }

  // ---------------------------------------------------------------------------
  // XML escaping

  /** `s.replace(/c/g, rep)`. */
  function ReplaceAll(s: string, c: char, rep: string): (r: string)
    ensures forall x | x in r :: (x in s && x != c) || x in rep
    ensures c !in s ==> r == s
  {
    if |s| == 0 then ""
    else
      var rest := ReplaceAll(s[1..], c, rep);
      assert forall x | x in s[1..] :: x in s;
      assert c !in s ==> s == [s[0]] + s[1..];
      (if s[0] == c then rep else [s[0]]) + rest
  }

  /** One character: an occurrence of `c` becomes `rep`, any other character stays. */
  lemma ReplaceAllChar(x: char, c: char, rep: string)
    ensures ReplaceAll([x], c, rep) == if x == c then rep else [x]
  {
    assert [x][1..] == [];
  }

  /** Replacing works character by character: it distributes over concatenation. */
  lemma {:induction false} ReplaceAllAppend(a: string, b: string, c: char, rep: string)
    ensures ReplaceAll(a + b, c, rep) == ReplaceAll(a, c, rep) + ReplaceAll(b, c, rep)
  {
    if |a| > 0 {
      assert (a + b)[1..] == a[1..] + b;
      ReplaceAllAppend(a[1..], b, c, rep);
    } else {
      assert a + b == b;
    }
  }

  /**
   * The escaping applied to names and wards: `&` first, then `<`, then `>`. The
   * result has no raw angle bracket, so text cannot open or close an element.
   */
  function EscapeXml(s: string): (r: string)
    ensures '<' !in r && '>' !in r
  {
    var amp := ReplaceAll(s, '&', "&amp;");
    var lt := ReplaceAll(amp, '<', "&lt;");
    assert '<' !in lt;
    ReplaceAll(lt, '>', "&gt;")
  }

  /** The escape of one character. */
  function EscapeChar(c: char): string {
    if c == '&' then "&amp;" else if c == '<' then "&lt;" else if c == '>' then "&gt;" else [c]
  }

  /** Escaping character by character. */
  function EscapeEach(s: string): string {
    if |s| == 0 then "" else EscapeChar(s[0]) + EscapeEach(s[1..])
  }

  lemma EscapeXmlAppend(a: string, b: string)
    ensures EscapeXml(a + b) == EscapeXml(a) + EscapeXml(b)
  {
    ReplaceAllAppend(a, b, '&', "&amp;");
    var a1, b1 := ReplaceAll(a, '&', "&amp;"), ReplaceAll(b, '&', "&amp;");
    ReplaceAllAppend(a1, b1, '<', "&lt;");
    ReplaceAllAppend(ReplaceAll(a1, '<', "&lt;"), ReplaceAll(b1, '<', "&lt;"), '>', "&gt;");
  }

  lemma EscapeXmlChar(c: char)
    ensures EscapeXml([c]) == EscapeChar(c)
  {
    var a1 := ReplaceAll([c], '&', "&amp;");
    assert a1 == (if c == '&' then "&amp;" else [c]) + ReplaceAll([], '&', "&amp;");
    var a2 := ReplaceAll(a1, '<', "&lt;");
    if c == '<' {
      assert a2 == "&lt;" + ReplaceAll([], '<', "&lt;");
    }
    if c == '>' {
      assert ReplaceAll(a2, '>', "&gt;") == "&gt;" + ReplaceAll([], '>', "&gt;");
    }
  }

  /** Because `&` is replaced first, the three passes escape each character exactly once. */
  lemma {:induction false} EscapeXmlIsPerChar(s: string)
    ensures EscapeXml(s) == EscapeEach(s)
  {
    if |s| > 0 {
      assert s == [s[0]] + s[1..];
      EscapeXmlAppend([s[0]], s[1..]);
      EscapeXmlChar(s[0]);
      EscapeXmlIsPerChar(s[1..]);
    }
  }

  /** Reading the three entities back. */
  function UnescapeXml(s: string): string
    decreases |s|
  {
    if |s| == 0 then ""
    else if |s| >= 5 && s[..5] == "&amp;" then "&" + UnescapeXml(s[5..])
    else if |s| >= 4 && s[..4] == "&lt;" then "<" + UnescapeXml(s[4..])
    else if |s| >= 4 && s[..4] == "&gt;" then ">" + UnescapeXml(s[4..])
    else [s[0]] + UnescapeXml(s[1..])
  }

  lemma UnescapeEscapedChar(c: char, t: string)
    ensures UnescapeXml(EscapeChar(c) + t) == [c] + UnescapeXml(t)
  {
    if c == '&' {
      UnescapeEntity("&amp;", t);
    } else if c == '<' {
      UnescapeEntity("&lt;", t);
    } else if c == '>' {
      UnescapeEntity("&gt;", t);
    } else {
      var s := [c] + t;
      assert s[0] == c && s[1..] == t;
    }
  }

  /** An entity at the front is read back as its character. */
  lemma UnescapeEntity(e: string, t: string)
    requires e == "&amp;" || e == "&lt;" || e == "&gt;"
    ensures UnescapeXml(e + t) == (if e == "&amp;" then "&" else if e == "&lt;" then "<" else ">") + UnescapeXml(t)
  {
    var s := e + t;
    assert s[..|e|] == e && s[|e|..] == t;
    if e != "&amp;" {
      assert s[1] == e[1] != 'a';
    }
    if e == "&gt;" {
      assert s[1] == 'g';
    }
  }

  /** Unescaping recovers the original name or ward. */
  lemma {:induction false} UnescapeEscapeXml(s: string)
    ensures UnescapeXml(EscapeXml(s)) == s
  {
    EscapeXmlIsPerChar(s);
    UnescapeEscapeEach(s);
  }

  lemma {:induction false} UnescapeEscapeEach(s: string)
    ensures UnescapeXml(EscapeEach(s)) == s
  {
    if |s| > 0 {
      UnescapeEscapedChar(s[0], EscapeEach(s[1..]));
      UnescapeEscapeEach(s[1..]);
    }
  }

  // ---------------------------------------------------------------------------
  // The GPX document

  /** `stop.ward || ""`. */
  function WardText(ward: Option<string>): string {
    match ward
    case None => ""
    case Some(w) => w
  }

  datatype Waypoint = Waypoint(lat: real, lon: real, name: string, desc: string)

  /** What the document says: the time stamp, one waypoint per stop, one track segment per stored path. */
  datatype Gpx = Gpx(time: string, waypoints: seq<Waypoint>, track: seq<seq<Coord>>)

  function WaypointOf(stop: Card): Waypoint {
    Waypoint(stop.coordinates.lat, stop.coordinates.lon, EscapeXml(stop.name), EscapeXml(WardText(stop.ward)))
  }

  /** `stops.forEach`: the waypoint of each stop, in route order. */
  function Waypoints(stops: seq<Card>): (ws: seq<Waypoint>)
    ensures |ws| == |stops| && forall i | 0 <= i < |stops| :: ws[i] == WaypointOf(stops[i])
  {
    seq(|stops|, i requires 0 <= i < |stops| => WaypointOf(stops[i]))
  }

  /** `Object.entries(segments).forEach`: the path of each entry, in store order. */
  function Track(segments: Segments): (t: seq<seq<Coord>>)
    ensures |t| == |segments| && forall j | 0 <= j < |segments| :: t[j] == segments[j].points
  {
    if |segments| == 0 then [] else Track(segments[..|segments| - 1]) + [segments[|segments| - 1].points]
  }

  /**
   * The content of the export: exactly one waypoint per stop, in route order, at the
   * stop's coordinates, with the escaped name and ward (an empty description for a
   * card without a ward); and one track segment per stored path, in store order.
   */
  function GpxOf(stops: seq<Card>, segments: Segments, time: string): (g: Gpx)
    ensures g.time == time
    ensures |g.waypoints| == |stops|
    ensures forall i | 0 <= i < |stops| ::
      && g.waypoints[i].lat == stops[i].coordinates.lat
      && g.waypoints[i].lon == stops[i].coordinates.lon
      && UnescapeXml(g.waypoints[i].name) == stops[i].name
      && UnescapeXml(g.waypoints[i].desc) == WardText(stops[i].ward)
      && '<' !in g.waypoints[i].name + g.waypoints[i].desc
      && '>' !in g.waypoints[i].name + g.waypoints[i].desc
    ensures forall i | 0 <= i < |stops| :: stops[i].ward.None? ==> g.waypoints[i].desc == ""
    ensures |g.track| == |segments| && forall j | 0 <= j < |segments| :: g.track[j] == segments[j].points
  {
    var g := Gpx(time, Waypoints(stops), Track(segments));
    forall i | 0 <= i < |stops|
      ensures UnescapeXml(g.waypoints[i].name) == stops[i].name
      ensures UnescapeXml(g.waypoints[i].desc) == WardText(stops[i].ward)
    {
      UnescapeEscapeXml(stops[i].name);
      UnescapeEscapeXml(WardText(stops[i].ward));
    }
    assert EscapeXml("") == "";
    g
  }

  function Header(time: string): string {
    "<?xml version=\"1.0\" encoding=\"UTF-8\"?>\n"
    + "<gpx version=\"1.1\" creator=\"Manhole Card Route Planner\"\n"
    + "     xmlns=\"http://www.topografix.com/GPX/1/1\"\n"
    + "     xmlns:xsi=\"http://www.w3.org/2001/XMLSchema-instance\"\n"
    + "     xsi:schemaLocation=\"http://www.topografix.com/GPX/1/1 http://www.topografix.com/GPX/1/1/gpx.xsd\">\n"
    + "  <metadata>\n"
    + "    <name>Manhole Card Route</name>\n"
    + "    <time>" + time + "</time>\n"
    + "  </metadata>\n"
  }

  /** One `<wpt>` element; `showNum` is JavaScript's conversion of a number to text. */
  function WptText(w: Waypoint, showNum: real -> string): string {
    "  <wpt lat=\"" + showNum(w.lat) + "\" lon=\"" + showNum(w.lon) + "\">\n"
    + "    <name>" + w.name + "</name>\n"
    + "    <desc>" + w.desc + "</desc>\n"
    + "  </wpt>\n"
  }

  function WptsText(ws: seq<Waypoint>, showNum: real -> string): string {
    if |ws| == 0 then "" else WptsText(ws[..|ws| - 1], showNum) + WptText(ws[|ws| - 1], showNum)
  }

  function TrkptText(p: Coord, showNum: real -> string): string {
    "      <trkpt lat=\"" + showNum(p.lat) + "\" lon=\"" + showNum(p.lon) + "\"></trkpt>\n"
  }

  function TrkptsText(ps: seq<Coord>, showNum: real -> string): string {
    if |ps| == 0 then "" else TrkptsText(ps[..|ps| - 1], showNum) + TrkptText(ps[|ps| - 1], showNum)
  }

  const TrksegOpen := "    <trkseg>\n"
  const TrksegClose := "    </trkseg>\n"
  const TrkOpen := "  <trk>\n    <name>Manhole Card Route</name>\n"
  const TrkClose := "  </trk>\n"
  const GpxClose := "</gpx>"

  function TrksegsText(t: seq<seq<Coord>>, showNum: real -> string): string {
    if |t| == 0 then ""
    else TrksegsText(t[..|t| - 1], showNum) + TrksegOpen + TrkptsText(t[|t| - 1], showNum) + TrksegClose
  }

  /** The `<trk>` element, written only when there is at least one track segment. */
  function TrackText(t: seq<seq<Coord>>, showNum: real -> string): (r: string)
    ensures r == "" <==> |t| == 0
  {
    if |t| == 0 then "" else TrkOpen + TrksegsText(t, showNum) + TrkClose
  }

  /** The document text: always the XML declaration first and `</gpx>` last. */
  function Render(g: Gpx, showNum: real -> string): (r: string)
    ensures StartsWith(r, Header(g.time))
    ensures EndsWith(r, GpxClose)
  {
    var r := Header(g.time) + WptsText(g.waypoints, showNum) + TrackText(g.track, showNum) + GpxClose;
    Bracketed(Header(g.time), WptsText(g.waypoints, showNum), TrackText(g.track, showNum), GpxClose);
    r
  }

  predicate StartsWith(s: string, prefix: string) {
    |prefix| <= |s| && s[..|prefix|] == prefix
  }

  predicate EndsWith(s: string, suffix: string) {
    |suffix| <= |s| && s[|s| - |suffix|..] == suffix
  }

  /** `a` is the head and `d` the tail of `a + b + c + d`. */
  lemma Bracketed(a: string, b: string, c: string, d: string)
    ensures StartsWith(a + b + c + d, a) && EndsWith(a + b + c + d, d)
  {
    var s := a + b + c + d;
    assert s[..|a|] == a;
    assert s[|s| - |d|..] == d;
  }

  lemma WptsTextPrefix(ws: seq<Waypoint>, i: nat, showNum: real -> string)
    requires i < |ws|
    ensures WptsText(ws[..i + 1], showNum) == WptsText(ws[..i], showNum) + WptText(ws[i], showNum)
  {
    assert ws[..i + 1][..i] == ws[..i];
  }

  lemma TrkptsTextPrefix(ps: seq<Coord>, k: nat, showNum: real -> string)
    requires k < |ps|
    ensures TrkptsText(ps[..k + 1], showNum) == TrkptsText(ps[..k], showNum) + TrkptText(ps[k], showNum)
  {
    assert ps[..k + 1][..k] == ps[..k];
  }

  lemma TrksegsTextPrefix(t: seq<seq<Coord>>, j: nat, showNum: real -> string)
    requires j < |t|
    ensures TrksegsText(t[..j + 1], showNum)
      == TrksegsText(t[..j], showNum) + TrksegOpen + TrkptsText(t[j], showNum) + TrksegClose
  {
    assert t[..j + 1][..j] == t[..j];
  }

  /** `stops.forEach(...)`: one `<wpt>` element appended per waypoint. */
  method AppendWaypoints(gpx0: string, ws: seq<Waypoint>, showNum: real -> string) returns (gpx: string)
    ensures gpx == gpx0 + WptsText(ws, showNum)
  {
    gpx := gpx0;
    var i := 0;
    while i < |ws|
      invariant 0 <= i <= |ws|
      invariant gpx == gpx0 + WptsText(ws[..i], showNum)
    {
      WptsTextPrefix(ws, i, showNum);
      ConcatAssoc(gpx0, WptsText(ws[..i], showNum), WptText(ws[i], showNum));
      gpx := gpx + WptText(ws[i], showNum);
      i := i + 1;
    }
    assert ws[..|ws|] == ws;
  }

  /** One `<trkseg>` element with a `<trkpt>` per point, in order. */
  method AppendTrkseg(gpx0: string, points: seq<Coord>, showNum: real -> string) returns (gpx: string)
    ensures gpx == gpx0 + TrksegOpen + TrkptsText(points, showNum) + TrksegClose
  {
    gpx := gpx0 + TrksegOpen;
    var k := 0;
    while k < |points|
      invariant 0 <= k <= |points|
      invariant gpx == gpx0 + TrksegOpen + TrkptsText(points[..k], showNum)
    {
      TrkptsTextPrefix(points, k, showNum);
      ConcatAssoc(gpx0 + TrksegOpen, TrkptsText(points[..k], showNum), TrkptText(points[k], showNum));
      gpx := gpx + TrkptText(points[k], showNum);
      k := k + 1;
    }
    assert points[..|points|] == points;
    gpx := gpx + TrksegClose;
  }

  /** `Object.entries(segments)`: the `<trk>` element, only when there is a segment. */
  method AppendTrack(gpx0: string, t: seq<seq<Coord>>, showNum: real -> string) returns (gpx: string)
    ensures gpx == gpx0 + TrackText(t, showNum)
  {
    gpx := gpx0;
    if |t| > 0 {
      var segs := "";
      var j := 0;
      while j < |t|
        invariant 0 <= j <= |t|
        invariant segs == TrksegsText(t[..j], showNum)
      {
        TrksegsTextPrefix(t, j, showNum);
        segs := AppendTrkseg(segs, t[j], showNum);
        j := j + 1;
      }
      assert t[..|t|] == t;
      gpx := gpx + (TrkOpen + segs + TrkClose);
    }
  }

  /**
   * `generateGPX`: the document built by appending to a string, stop by stop, then
   * path by path and point by point. The time stamp is a parameter.
   */
  method GenerateGpx(stops: seq<Card>, segments: Segments, time: string, showNum: real -> string)
    returns (gpx: string)
    ensures gpx == Render(GpxOf(stops, segments, time), showNum)
  {
    ghost var g := GpxOf(stops, segments, time);
    assert g == Gpx(time, Waypoints(stops), Track(segments));
    gpx := Header(time);
    gpx := AppendWaypoints(gpx, Waypoints(stops), showNum);
    gpx := AppendTrack(gpx, Track(segments), showNum);
    gpx := gpx + GpxClose;
  }
}
