/**
 Round-robin arithmetic: positions of a cyclic scan, the distance a cursor still
 has to travel, and the argument that turns "every run brings the cursor closer"
 into a bound on waiting.
 */
module Rotation {

  /** Cursor advance of both pumps. */
  function Advance(cursor: nat, count: nat): (r: nat)
    requires cursor < count
    ensures r < count
  {
    if cursor + 1 >= count then 0 else cursor + 1
  }

  /** The index a scan from `start` visits at `offset`. */
  function At(start: nat, offset: nat, count: nat): (r: nat)
    requires start < count && offset <= count
    ensures r < count
  {
    if start + offset < count then start + offset else start + offset - count
  }

  /** Steps from the cursor to `x`. */
  function Distance(cursor: nat, x: nat, count: nat): (d: nat)
    requires cursor < count && x < count
    ensures d < count
  {
    if cursor <= x then x - cursor else x + count - cursor
  }

  lemma DistanceAt(start: nat, x: nat, count: nat)
    requires start < count && x < count
    ensures At(start, Distance(start, x, count), count) == x
    ensures forall o :: 0 <= o < count && At(start, o, count) == x ==> o == Distance(start, x, count)
  {
  }

  /** Stopping just past offset `o` brings the cursor closer to everything it had not reached. */
  lemma CursorPast(start: nat, o: nat, x: nat, count: nat)
    requires start < count && x < count && o < Distance(start, x, count)
    ensures Distance(Advance(At(start, o, count), count), x, count) < Distance(start, x, count)
  {
  }

  /** Weight of the offsets a scan has still to visit. */
  function Rest(w: seq<nat>, start: nat, offset: nat): nat
    requires start < |w| && offset <= |w|
    decreases |w| - offset
  {
    if offset == |w| then 0 else w[At(start, offset, |w|)] + Rest(w, start, offset + 1)
  }

  function Sum(w: seq<nat>): nat {
    if w == [] then 0 else w[0] + Sum(w[1..])
  }

  lemma {:induction false} SumConcat(a: seq<nat>, b: seq<nat>)
    ensures Sum(a + b) == Sum(a) + Sum(b)
  {
    if a == [] {
      assert a + b == b;
    } else {
      assert (a + b)[1..] == a[1..] + b;
      SumConcat(a[1..], b);
    }
  }

  lemma {:induction false} RestIsTail(w: seq<nat>, start: nat, offset: nat)
    requires start < |w| && offset <= |w|
    ensures Rest(w, start, offset) == Sum((w[start..] + w[..start])[offset..])
    decreases |w| - offset
  {
    var r := w[start..] + w[..start];
    if offset < |w| {
      assert r[offset] == w[At(start, offset, |w|)];
      assert r[offset..][1..] == r[offset + 1..];
      RestIsTail(w, start, offset + 1);
    }
  }

  /** A full turn weighs the same from wherever it starts. */
  lemma FullTurn(w: seq<nat>, start: nat)
    requires start < |w|
    ensures Rest(w, start, 0) == Sum(w)
  {
    RestIsTail(w, start, 0);
    assert (w[start..] + w[..start])[0..] == w[start..] + w[..start];
    SumConcat(w[start..], w[..start]);
    SumConcat(w[..start], w[start..]);
    assert w == w[..start] + w[start..];
  }

  lemma {:induction false} RestCovers(w: seq<nat>, start: nat, offset: nat, o: nat)
    requires start < |w| && offset <= o < |w|
    ensures Rest(w, start, offset) >= w[At(start, o, |w|)]
    decreases o - offset
  {
    if offset < o {
      RestCovers(w, start, offset + 1, o);
    }
  }

  /**
   Bounded waiting.  `distance[k]` is how far the cursors are from somebody before
   run `k`, `served[k]` says that run `k` served him.  If every run serves him or
   shortens the distance, one of the first `distance[0] + 1` runs serves him.
   */
  lemma {:induction false} BoundedWaiting(distance: seq<nat>, served: seq<bool>)
    requires |distance| == |served| + 1 && |served| > distance[0]
    requires forall k :: 0 <= k < |served| ==> served[k] || distance[k + 1] < distance[k]
    ensures exists k :: 0 <= k <= distance[0] && served[k]
    decreases |served|
  {
    if !served[0] {
      var tail, rest := distance[1..], served[1..];
      assert forall k :: 0 <= k < |rest| ==> rest[k] == served[k + 1];
      BoundedWaiting(tail, rest);
      var k :| 0 <= k <= tail[0] && rest[k];
      assert served[k + 1];
    }
  }
}
