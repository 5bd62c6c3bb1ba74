/** The two array operations the catalog is built from: `Array.filter`,
    which every delete uses, and the pair of `splice` calls a drag-and-drop
    reorder performs. */
module ArrayOps {
  import opened Js

  /** `s.find(hit)`, as the index of the element it returns: the first one
      that passes, or none when no element does. */
  function FindIndex<T>(s: seq<T>, hit: T -> bool): (r: Option<nat>)
    ensures r.Some? ==> r.value < |s| && hit(s[r.value])
    ensures r.Some? ==> forall k :: 0 <= k < r.value ==> !hit(s[k])
    ensures r.None? <==> forall k :: 0 <= k < |s| ==> !hit(s[k])
  {
    if s == [] then None
    else if hit(s[0]) then Some(0)
    else
      match FindIndex(s[1..], hit)
      case None => None
      case Some(k) => Some(k + 1)
  }

  /** Two lists on which the test agrees position by position give the
      same answer. */
  lemma FindIndexSameHits<T>(a: seq<T>, b: seq<T>, hit: T -> bool)
    requires |a| == |b| && forall k :: 0 <= k < |a| ==> hit(a[k]) == hit(b[k])
    ensures FindIndex(a, hit) == FindIndex(b, hit)
  {
    var ra, rb := FindIndex(a, hit), FindIndex(b, hit);
    if ra.Some? {
      assert hit(b[ra.value]);
    }
    if rb.Some? {
      assert hit(a[rb.value]);
    }
  }

  /** `s.filter(keep)`: the elements that pass, in their original order. */
  function Filter<T>(s: seq<T>, keep: T -> bool): (r: seq<T>)
    ensures |r| <= |s|
    ensures forall i :: 0 <= i < |r| ==> keep(r[i])
    ensures forall x :: x in multiset(s) && keep(x) ==> multiset(r)[x] == multiset(s)[x]
    ensures multiset(r) <= multiset(s)
  {
    if s == [] then []
    else
      var rest := Filter(s[1..], keep);
      assert s == [s[0]] + s[1..];
      if keep(s[0]) then [s[0]] + rest else rest
  }

  /** `r` is drawn from `s` at the strictly increasing positions `idx`. */
  ghost predicate DrawnFrom<T>(s: seq<T>, r: seq<T>, idx: seq<nat>)
  {
    |idx| == |r|
    && (forall i :: 0 <= i < |idx| ==> idx[i] < |s| && r[i] == s[idx[i]])
    && (forall i, j :: 0 <= i < j < |idx| ==> idx[i] < idx[j])
  }

  /** Every passing position of `s` is among `idx`. */
  ghost predicate CoversPassing<T>(s: seq<T>, keep: T -> bool, idx: seq<nat>)
  {
    forall k :: 0 <= k < |s| && keep(s[k]) ==> k in idx
  }

  function Shifted(idx: seq<nat>): (r: seq<nat>)
    ensures |r| == |idx| && forall i :: 0 <= i < |idx| ==> r[i] == idx[i] + 1
  {
    seq(|idx|, i requires 0 <= i < |idx| => idx[i] + 1)
  }

  /** Positions in the tail, moved one up, are positions in the whole list. */
  lemma ShiftedDrawn<T>(s: seq<T>, r: seq<T>, idx: seq<nat>)
    requires s != [] && DrawnFrom(s[1..], r, idx)
    ensures DrawnFrom(s, r, Shifted(idx))
  {
    var sh := Shifted(idx);
    forall i | 0 <= i < |sh| ensures sh[i] < |s| && r[i] == s[sh[i]] {
      assert s[1..][idx[i]] == s[sh[i]];
    }
  }

  /** The head goes in front of positions that all lie past it. */
  lemma HeadDrawn<T>(s: seq<T>, r: seq<T>, idx: seq<nat>)
    requires s != [] && DrawnFrom(s, r, idx) && forall i :: 0 <= i < |idx| ==> idx[i] > 0
    ensures DrawnFrom(s, [s[0]] + r, [0] + idx)
  {
    var r2, i2 := [s[0]] + r, [0] + idx;
    forall i | 0 <= i < |i2| ensures i2[i] < |s| && r2[i] == s[i2[i]] {
      if i > 0 {
        assert r2[i] == r[i - 1] && i2[i] == idx[i - 1];
      }
    }
  }

  /** A passing position of the tail, moved one up, is among the shifted
      positions. */
  lemma ShiftedCovers<T>(s: seq<T>, idx: seq<nat>, keep: T -> bool)
    requires s != [] && CoversPassing(s[1..], keep, idx)
    ensures forall k :: 1 <= k < |s| && keep(s[k]) ==> k in Shifted(idx)
  {
    var sh := Shifted(idx);
    forall k | 1 <= k < |s| && keep(s[k]) ensures k in sh {
      assert s[1..][k - 1] == s[k];
      var i :| 0 <= i < |idx| && idx[i] == k - 1;
      assert sh[i] == k;
    }
  }

  /** The positions `s.filter(keep)` draws its elements from: strictly
      increasing, and every passing position among them. This pins the
      filtered list down completely, order included. */
  function FilterPositions<T>(s: seq<T>, keep: T -> bool): (idx: seq<nat>)
    ensures DrawnFrom(s, Filter(s, keep), idx) && CoversPassing(s, keep, idx)
  {
    if s == [] then []
    else
      var rest := FilterPositions(s[1..], keep);
      ShiftedDrawn(s, Filter(s[1..], keep), rest);
      ShiftedCovers(s, rest, keep);
      if keep(s[0]) then
        HeadDrawn(s, Filter(s[1..], keep), Shifted(rest));
        assert 0 in [0] + Shifted(rest);
        [0] + Shifted(rest)
      else Shifted(rest)
  }

  /** An element survives the filter exactly when it was there and passes. */
  lemma FilterMembership<T>(s: seq<T>, keep: T -> bool, x: T)
    ensures x in Filter(s, keep) <==> x in s && keep(x)
  {
    var r := Filter(s, keep);
    if x in r {
      var i :| 0 <= i < |r| && r[i] == x;
      assert keep(r[i]);
      assert x in multiset(r);
    }
    if x in s && keep(x) {
      assert x in multiset(s);
      assert x in multiset(r);
    }
  }

  /** Filtering with a test every element passes changes nothing. */
  lemma {:induction false} FilterKeepsAll<T>(s: seq<T>, keep: T -> bool)
    requires forall i :: 0 <= i < |s| ==> keep(s[i])
    ensures Filter(s, keep) == s
  {
    if s != [] {
      assert s == [s[0]] + s[1..];
      FilterKeepsAll(s[1..], keep);
    }
  }

  /** Filtering distributes over concatenation: the survivors keep their
      relative order. */
  lemma {:induction false} FilterAppend<T>(a: seq<T>, b: seq<T>, keep: T -> bool)
    ensures Filter(a + b, keep) == Filter(a, keep) + Filter(b, keep)
  {
    if a == [] {
      assert a + b == b;
    } else {
      assert (a + b)[1..] == a[1..] + b;
      FilterAppend(a[1..], b, keep);
    }
  }

  /** Filtering twice with the same test is filtering once. */
  lemma {:induction false} FilterIdempotent<T>(s: seq<T>, keep: T -> bool)
    ensures Filter(Filter(s, keep), keep) == Filter(s, keep)
  {
    FilterKeepsAll(Filter(s, keep), keep);
  }

  /** `s.splice(i, 1)`: the sequence without its element at `i`. */
  function RemoveAt<T>(s: seq<T>, i: nat): (r: seq<T>)
    requires i < |s|
    ensures |r| == |s| - 1
    ensures forall k :: 0 <= k < i ==> r[k] == s[k]
    ensures forall k :: i <= k < |r| ==> r[k] == s[k + 1]
  {
    s[..i] + s[i + 1..]
  }

  /** `s.splice(i, 0, x)`: the sequence with `x` inserted before index `i`. */
  function InsertAt<T>(s: seq<T>, i: nat, x: T): (r: seq<T>)
    requires i <= |s|
    ensures |r| == |s| + 1 && r[i] == x
    ensures forall k :: 0 <= k < i ==> r[k] == s[k]
    ensures forall k :: i < k < |r| ==> r[k] == s[k - 1]
  {
    s[..i] + [x] + s[i..]
  }

  /** A drag-and-drop move: take the element at `from` out, then put it back
      so that it ends up at index `to`. */
  function Move<T>(s: seq<T>, from: nat, to: nat): seq<T>
    requires from < |s| && to < |s|
  {
    InsertAt(RemoveAt(s, from), to, s[from])
  }

  /** A move keeps the length, puts the moved element at `to`, and leaves the
      other elements in their old relative order. */
  lemma MoveShape<T>(s: seq<T>, from: nat, to: nat)
    requires from < |s| && to < |s|
    ensures |Move(s, from, to)| == |s|
    ensures Move(s, from, to)[to] == s[from]
    ensures RemoveAt(Move(s, from, to), to) == RemoveAt(s, from)
  {
    var rest := RemoveAt(s, from);
    var r := Move(s, from, to);
    assert RemoveAt(r, to) == rest;
  }

  /** A move is a permutation: the same elements, as often as before. */
  lemma MovePermutes<T>(s: seq<T>, from: nat, to: nat)
    requires from < |s| && to < |s|
    ensures multiset(Move(s, from, to)) == multiset(s)
  {
    var rest := RemoveAt(s, from);
    assert s == s[..from] + [s[from]] + s[from + 1..];
    assert multiset(s) == multiset(rest) + multiset{s[from]};
    assert rest == rest[..to] + rest[to..];
    assert multiset(Move(s, from, to)) == multiset(rest[..to]) + multiset{s[from]} + multiset(rest[to..]);
  }

  /** Dropping an element where it was picked up changes nothing. */
  lemma MoveInPlace<T>(s: seq<T>, i: nat)
    requires i < |s|
    ensures Move(s, i, i) == s
  {
    assert Move(s, i, i) == s[..i] + [s[i]] + s[i + 1..];
    assert s == s[..i] + [s[i]] + s[i + 1..];
  }

  /** Moving an element and then moving it back restores the sequence. */
  lemma MoveBack<T>(s: seq<T>, from: nat, to: nat)
    requires from < |s| && to < |s|
    ensures |Move(s, from, to)| == |s|
    ensures Move(Move(s, from, to), to, from) == s
  {
    MoveShape(s, from, to);
    var m := Move(s, from, to);
    var back := Move(m, to, from);
    assert RemoveAt(m, to) == RemoveAt(s, from);
    assert back == InsertAt(RemoveAt(s, from), from, s[from]);
    assert s == s[..from] + [s[from]] + s[from + 1..];
  }
}
