/**
 * The reference data the route planner works with: a map position, a manhole card
 * from the catalogue, and the two array helpers (`find` by id and `filter`) that
 * every part of the planner uses to look cards up and to drop them.
 */
module Cards {

  datatype Option<T> = None | Some(value: T)

  /** A position as the source stores it, the pair `[lat, lng]`. */
  datatype Coord = Coord(lat: real, lon: real)

  /**
   * A manhole card. `ward` may be absent from the catalogue entry, and
   * `collected` is a tri-state flag: `None` stands for an undefined flag.
   */
  datatype Card = Card(
    id: string,
    name: string,
    coordinates: Coord,
    ward: Option<string>,
    collectionDay: int,
    collected: Option<bool>)

  /** Some card in `s` carries the identifier `id`. */
  predicate HasId(s: seq<Card>, id: string) {
    exists i | 0 <= i < |s| :: s[i].id == id
  }

  /** No identifier occurs twice in `s`. */
  predicate DistinctIds(s: seq<Card>) {
    forall i, j | 0 <= i < j < |s| :: s[i].id != s[j].id
  }

  /** `s.find((c) => c.id === id)`: the first card with that identifier, if any. */
  function Find(s: seq<Card>, id: string): (r: Option<Card>)
    ensures r.None? <==> !HasId(s, id)
    ensures r.Some? ==> exists k | 0 <= k < |s| ::
      s[k] == r.value && r.value.id == id && forall j | 0 <= j < k :: s[j].id != id
  {
    if |s| == 0 then None
    else if s[0].id == id then Some(s[0])
    else
      var r := Find(s[1..], id);
      assert r.Some? ==> exists k | 1 <= k < |s| ::
        s[k] == r.value && r.value.id == id && forall j | 1 <= j < k :: s[j].id != id by {
        if r.Some? {
          var k' :| 0 <= k' < |s| - 1 && s[1..][k'] == r.value && r.value.id == id
            && forall j | 0 <= j < k' :: s[1..][j].id != id;
          assert s[k' + 1] == r.value;
          assert forall j | 1 <= j < k' + 1 :: s[j].id != id by {
            forall j | 1 <= j < k' + 1 ensures s[j].id != id { assert s[j] == s[1..][j - 1]; }
          }
        }
      }
      r
  }

  /** With distinct identifiers, the card found for the id of a member of `s` is that member. */
  lemma {:induction false} FindMember(s: seq<Card>, k: nat)
    requires DistinctIds(s) && k < |s|
    ensures Find(s, s[k].id) == Some(s[k])
  {
    var r := Find(s, s[k].id);
    var k' :| 0 <= k' < |s| && s[k'] == r.value && r.value.id == s[k].id
      && forall j | 0 <= j < k' :: s[j].id != s[k].id;
    assert k' == k;
  }

  /** `s.filter(p)`: the elements of `s` that satisfy `p`, in their order in `s`. */
  function Filter(s: seq<Card>, p: Card -> bool): (r: seq<Card>)
    ensures |r| <= |s|
    ensures forall x :: x in r <==> x in s && p(x)
    ensures SubseqOf(r, s)
  {
    if |s| == 0 then []
    else
      var rest := Filter(s[1..], p);
      assert forall x :: x in s <==> x == s[0] || x in s[1..];
      if p(s[0]) then
        assert ([s[0]] + rest)[1..] == rest;
        [s[0]] + rest
      else
        SubseqDropHead(rest, s);
        rest
  }

  /** `a` can be obtained from `b` by deleting elements: the order of what is kept is the order in `b`. */
  predicate SubseqOf<T(==)>(a: seq<T>, b: seq<T>)
    decreases |b|
  {
    if |a| == 0 then true
    else if |b| == 0 then false
    else if a[0] == b[0] then SubseqOf(a[1..], b[1..])
    else SubseqOf(a, b[1..])
  }

  /** Putting one more element in front of `b` keeps `a` a subsequence. */
  lemma SubseqDropHead<T>(a: seq<T>, b: seq<T>)
    requires |b| > 0 && SubseqOf(a, b[1..])
    ensures SubseqOf(a, b)
    decreases |b|, 0
  {
    if |a| > 0 && a[0] == b[0] {
      SubseqTail(a, b[1..]);
    }
  }

  /** Dropping the first element of `a` keeps it a subsequence. */
  lemma SubseqTail<T>(a: seq<T>, c: seq<T>)
    requires |a| > 0 && SubseqOf(a, c)
    ensures SubseqOf(a[1..], c)
    decreases |c|, 1
  {
    if a[0] == c[0] {
      SubseqDropHead(a[1..], c);
    } else {
      SubseqTail(a, c[1..]);
      SubseqDropHead(a[1..], c);
    }
  }

  /** Filtering distributes over concatenation. */
  lemma {:induction false} FilterAppend(s: seq<Card>, t: seq<Card>, p: Card -> bool)
    ensures Filter(s + t, p) == Filter(s, p) + Filter(t, p)
  {
    if |s| > 0 {
      assert (s + t)[1..] == s[1..] + t;
      FilterAppend(s[1..], t, p);
    } else {
      assert s + t == t;
    }
  }

  /** Filtering keeps everything when every element passes. */
  lemma {:induction false} FilterKeepsAll(s: seq<Card>, p: Card -> bool)
    requires forall i | 0 <= i < |s| :: p(s[i])
    ensures Filter(s, p) == s
  {
    if |s| > 0 {
      FilterKeepsAll(s[1..], p);
    }
  }

  /** Filtering a list of cards with distinct identifiers keeps them distinct. */
  lemma {:induction false} FilterKeepsDistinctIds(s: seq<Card>, p: Card -> bool)
    requires DistinctIds(s)
    ensures DistinctIds(Filter(s, p))
  {
    if |s| > 0 {
      FilterKeepsDistinctIds(s[1..], p);
      var rest := Filter(s[1..], p);
      if p(s[0]) {
        forall j | 0 <= j < |rest| ensures rest[j].id != s[0].id {
          assert rest[j] in s[1..];
        }
      }
    }
  }

  /** Appending to a sequence in two steps is appending the two pieces joined. */
  lemma ConcatAssoc<T>(a: seq<T>, b: seq<T>, c: seq<T>)
    ensures a + b + c == a + (b + c)
  {
  }
}
