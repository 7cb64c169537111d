/**
 * A parsed JSON value, as `JSON.parse` hands it to the planner. Object members keep
 * their textual order. Whatever turns text into such a value (`JSON.parse`, `atob`,
 * `decodeURIComponent`) and back is not modelled here: the operations that need it
 * take the two directions as parameters.
 */
module Json {
  import opened Cards

  datatype Json =
    | JNull
    | JBool(b: bool)
    | JNum(n: real)
    | JStr(s: string)
    | JArr(items: seq<Json>)
    | JObj(fields: seq<(string, Json)>)

  /**
   * `obj[name]` on a parsed object: the value of the member with that name, if any.
   * `JSON.parse` keeps the last of repeated names, so the search runs from the end.
   */
  function Field(fields: seq<(string, Json)>, name: string): (r: Option<Json>)
    ensures r.None? <==> forall i | 0 <= i < |fields| :: fields[i].0 != name
    ensures r.Some? ==> exists i | 0 <= i < |fields| ::
      fields[i] == (name, r.value) && forall j | i < j < |fields| :: fields[j].0 != name
  {
    if |fields| == 0 then None
    else if fields[|fields| - 1].0 == name then Some(fields[|fields| - 1].1)
    else
      var front := fields[..|fields| - 1];
      var r := Field(front, name);
      assert r.Some? ==> exists i | 0 <= i < |fields| ::
        fields[i] == (name, r.value) && forall j | i < j < |fields| :: fields[j].0 != name
      by {
        if r.Some? {
          var i :| 0 <= i < |front| && front[i] == (name, r.value)
            && forall j | i < j < |front| :: front[j].0 != name;
          assert fields[i] == front[i];
          forall j | i < j < |fields| ensures fields[j].0 != name {
            if j < |front| { assert fields[j] == front[j]; }
          }
        }
      }
      assert r.None? ==> forall i | 0 <= i < |fields| :: fields[i].0 != name by {
        if r.None? {
          forall i | 0 <= i < |fields| ensures fields[i].0 != name {
            if i < |front| { assert fields[i] == front[i]; }
          }
        }
      }
      r
  }

  /** JavaScript truthiness of a parsed value (JSON has no NaN and no undefined). */
  predicate Truthy(j: Json) {
    match j
    case JNull => false
    case JBool(b) => b
    case JNum(n) => n != 0.0
    case JStr(s) => |s| > 0
    case JArr(_) => true
    case JObj(_) => true
  }

  /**
   * What the share link and local storage rely on of the text codec for one value
   * `j`: reading back what was written for `j` gives `j`, and that text is not empty.
   */
  predicate RoundTrips(serialise: Json -> string, parse: string -> Option<Json>, j: Json) {
    parse(serialise(j)) == Some(j) && |serialise(j)| > 0
  }
}
