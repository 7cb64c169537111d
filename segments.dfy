/**
 * The segment store: a JavaScript object from segment keys ("fromId::toId") to the
 * drawn path between two stops. JavaScript objects keep string keys in insertion
 * order, and that order decides the order of the track segments written to GPX and
 * which point wins a tie in the closest-approach search, so the store is an ordered
 * list of entries whose keys are distinct.
 */
module SegmentMap {
  import opened Cards

  datatype Segment = Segment(key: string, points: seq<Coord>)

  type Segments = seq<Segment>

  /** No key occurs twice, as in any JavaScript object. */
  predicate DistinctKeys(m: Segments) {
    forall i, j | 0 <= i < j < |m| :: m[i].key != m[j].key
  }

  predicate HasKey(m: Segments, k: string) {
    exists i | 0 <= i < |m| :: m[i].key == k
  }

  /** `m[k]`: the path stored under `k`, or `None` for `undefined`. */
  function Get(m: Segments, k: string): (r: Option<seq<Coord>>)
    ensures r.None? <==> !HasKey(m, k)
    ensures r.Some? ==> exists i | 0 <= i < |m| :: m[i] == Segment(k, r.value)
  {
    if |m| == 0 then None
    else if m[0].key == k then Some(m[0].points)
    else
      var r := Get(m[1..], k);
      assert r.Some? ==> exists i | 1 <= i < |m| :: m[i] == Segment(k, r.value) by {
        if r.Some? {
          var i :| 0 <= i < |m| - 1 && m[1..][i] == Segment(k, r.value);
          assert m[i + 1] == Segment(k, r.value);
        }
      }
      r
  }

  /** In a store with distinct keys, the entry at position `i` is what `Get` finds for its key. */
  lemma {:induction false} GetAt(m: Segments, i: nat)
    requires DistinctKeys(m) && i < |m|
    ensures Get(m, m[i].key) == Some(m[i].points)
  {
    if i > 0 {
      assert m[1..][i - 1] == m[i];
      GetAt(m[1..], i - 1);
    }
  }

  /**
   * `{ ...m, [k]: v }`: an existing key keeps its position and takes the new value,
   * a new key goes at the end.
   */
  function Put(m: Segments, k: string, v: seq<Coord>): (r: Segments)
    ensures Get(r, k) == Some(v)
    ensures forall k' | k' != k :: Get(r, k') == Get(m, k')
    ensures |r| >= |m| && forall i | 0 <= i < |m| :: r[i].key == m[i].key
    ensures !HasKey(m, k) ==> r == m + [Segment(k, v)]
  {
    if |m| == 0 then [Segment(k, v)]
    else if m[0].key == k then [Segment(k, v)] + m[1..]
    else
      assert !HasKey(m, k) ==> !HasKey(m[1..], k) && m == [m[0]] + m[1..] by {
        if !HasKey(m, k) {
          forall i | 0 <= i < |m| - 1 ensures m[1..][i].key != k { assert m[1..][i] == m[i + 1]; }
        }
      }
      [m[0]] + Put(m[1..], k, v)
  }

  /** Putting a key into a store with distinct keys keeps them distinct, and adds an entry only for a new key. */
  lemma {:induction false} PutKeepsDistinctKeys(m: Segments, k: string, v: seq<Coord>)
    requires DistinctKeys(m)
    ensures DistinctKeys(Put(m, k, v))
    ensures |Put(m, k, v)| == if HasKey(m, k) then |m| else |m| + 1
  {
    if |m| > 0 && m[0].key != k {
      PutKeepsDistinctKeys(m[1..], k, v);
      var rest := Put(m[1..], k, v);
      assert HasKey(m, k) <==> HasKey(m[1..], k) by {
        if HasKey(m, k) {
          var i :| 0 <= i < |m| && m[i].key == k;
          assert m[1..][i - 1] == m[i];
        }
      }
      forall j | 0 <= j < |rest| ensures rest[j].key != m[0].key {
        if j < |m| - 1 {
          assert rest[j].key == m[1..][j].key == m[j + 1].key;
        } else {
          assert !HasKey(m[1..], k);
          assert rest == m[1..] + [Segment(k, v)];
          assert rest[j].key == k;
        }
      }
      var r := [m[0]] + rest;
      assert Put(m, k, v) == r;
      forall a, b | 0 <= a < b < |r| ensures r[a].key != r[b].key {
        if a > 0 { assert r[a] == rest[a - 1] && r[b] == rest[b - 1]; }
        else { assert r[b] == rest[b - 1]; }
      }
    } else if |m| > 0 {
      assert HasKey(m, k);
    }
  }

  /** `delete m[k]` on a copy: every entry with key `k` goes, the others keep their order. */
  function Delete(m: Segments, k: string): (r: Segments)
    ensures !HasKey(r, k)
    ensures forall k' | k' != k :: Get(r, k') == Get(m, k')
    ensures !HasKey(m, k) ==> r == m
    ensures forall s :: s in r <==> s in m && s.key != k
    ensures SubseqOf(r, m)
  {
    if |m| == 0 then []
    else
      var rest := Delete(m[1..], k);
      assert forall s :: s in m <==> s == m[0] || s in m[1..];
      assert !HasKey(m, k) ==> !HasKey(m[1..], k) && m == [m[0]] + m[1..] by {
        if !HasKey(m, k) {
          forall i | 0 <= i < |m| - 1 ensures m[1..][i].key != k { assert m[1..][i] == m[i + 1]; }
        }
      }
      if m[0].key == k then
        SubseqDropHead(rest, m);
        rest
      else
        assert !HasKey([m[0]] + rest, k) by {
          forall i | 0 <= i < |rest| + 1 ensures ([m[0]] + rest)[i].key != k {
            if i > 0 { assert ([m[0]] + rest)[i] == rest[i - 1]; }
          }
        }
        assert ([m[0]] + rest)[1..] == rest;
        [m[0]] + rest
  }

  /** Deleting from a store with distinct keys keeps them distinct. */
  lemma {:induction false} DeleteKeepsDistinctKeys(m: Segments, k: string)
    requires DistinctKeys(m)
    ensures DistinctKeys(Delete(m, k))
  {
    if |m| > 0 {
      assert DistinctKeys(m[1..]);
      DeleteKeepsDistinctKeys(m[1..], k);
      var rest := Delete(m[1..], k);
      if m[0].key != k {
        forall j | 0 <= j < |rest| ensures rest[j].key != m[0].key {
          assert rest[j] in rest;
          assert rest[j] in m[1..];
          var i :| 0 <= i < |m| - 1 && m[1..][i] == rest[j];
          assert m[i + 1] == rest[j];
        }
      }
    }
  }
}
