/**
 * The display order: by time, non-spam before spam at equal time, and raw
 * order among events the comparator calls equal (`Array.prototype.sort` is
 * stable, section 22.1.3.27 of ECMAScript 2019). Events are indices into raw.
 */
module Sorter {
  import opened Events
  import opened FilterSet

  /** The comparator passed to `this.messages.sort`. */
  function Compare(a: Event, b: Event): (c: int)
    ensures c < 0 <==> a.time < b.time || (a.time == b.time && !a.spam && b.spam)
    ensures c == 0 <==> a.time == b.time && a.spam == b.spam
    ensures c > 0 <==> b.time < a.time || (a.time == b.time && a.spam && !b.spam)
  {
    var timeDiff := a.time - b.time;
    if timeDiff == 0 then
      if a.spam == b.spam then 0 else if a.spam then 1 else -1
    else timeDiff
  }

  /** The comparator is consistent: swapping its arguments flips the sign of the result. */
  lemma CompareSwapped(a: Event, b: Event)
    ensures Compare(a, b) < 0 <==> Compare(b, a) > 0
    ensures Compare(a, b) == 0 <==> Compare(b, a) == 0
  {
  }

  /** Raw event `x` is displayed before raw event `y`: the comparator, then raw order. */
  predicate Precedes(raw: seq<Event>, x: nat, y: nat)
    requires x < |raw| && y < |raw|
  {
    var c := Compare(raw[x], raw[y]);
    c < 0 || (c == 0 && x < y)
  }

  /** Every element of `m` is an index into `raw`. */
  predicate IndicesOf(raw: seq<Event>, m: seq<nat>) {
    forall i :: 0 <= i < |m| ==> m[i] < |raw|
  }

  /** `m` lists raw events in display order. */
  predicate InViewOrder(raw: seq<Event>, m: seq<nat>) {
    IndicesOf(raw, m) && forall i, j :: 0 <= i < j < |m| ==> Precedes(raw, m[i], m[j])
  }

  lemma PrecedesTransitive(raw: seq<Event>, x: nat, y: nat, z: nat)
    requires x < |raw| && y < |raw| && z < |raw|
    requires Precedes(raw, x, y) && Precedes(raw, y, z)
    ensures Precedes(raw, x, z)
  {
  }

  lemma PrecedesAsymmetric(raw: seq<Event>, x: nat, y: nat)
    requires x < |raw| && y < |raw|
    requires Precedes(raw, x, y)
    ensures !Precedes(raw, y, x) && x != y
  {
  }

  /** What display order promises: time never decreases, clean before spam at equal time, raw order otherwise, no repeats. */
  lemma ViewOrderMeaning(raw: seq<Event>, m: seq<nat>, i: nat, j: nat)
    requires InViewOrder(raw, m)
    requires i < j < |m|
    ensures raw[m[i]].time <= raw[m[j]].time
    ensures raw[m[i]].time == raw[m[j]].time && raw[m[i]].spam ==> raw[m[j]].spam
    ensures raw[m[i]].time == raw[m[j]].time && raw[m[i]].spam == raw[m[j]].spam ==> m[i] < m[j]
    ensures m[i] != m[j]
  {
    assert Precedes(raw, m[i], m[j]);
  }

  /** Display order is determined by the set of events shown: two such lists of the same events are equal. */
  lemma {:induction false} ViewOrderUnique(raw: seq<Event>, m1: seq<nat>, m2: seq<nat>)
    requires InViewOrder(raw, m1) && InViewOrder(raw, m2)
    requires forall x :: x in m1 <==> x in m2
    ensures m1 == m2
    decreases |m1|
  {
    if m1 != [] {
      assert m1[0] in m2;
    }
    if m2 != [] {
      assert m2[0] in m1;
    }
    if m1 != [] {
      if m1[0] != m2[0] {
        assert m2[0] in m1;
        var j :| 0 <= j < |m1| && m1[j] == m2[0];
        assert m1[0] in m2;
        var j' :| 0 <= j' < |m2| && m2[j'] == m1[0];
        assert Precedes(raw, m1[0], m1[j]);
        assert Precedes(raw, m2[0], m2[j']);
        PrecedesAsymmetric(raw, m1[0], m2[0]);
      }
      forall x
        ensures x in m1[1..] <==> x in m2[1..]
      {
        if x in m1[1..] {
          var i :| 1 <= i < |m1| && m1[i] == x;
          assert Precedes(raw, m1[0], m1[i]);
          assert x in m2;
        }
        if x in m2[1..] {
          var i :| 1 <= i < |m2| && m2[i] == x;
          assert Precedes(raw, m2[0], m2[i]);
          assert x in m1;
        }
      }
      ViewOrderUnique(raw, m1[1..], m2[1..]);
      assert m1 == [m1[0]] + m1[1..];
      assert m2 == [m2[0]] + m2[1..];
    }
  }

  /**
   * Putting `x`, later in raw order than every element of `r`, at position
   * `j` keeps display order when the comparator ranks the elements before `j`
   * no higher and the elements from `j` on strictly higher than `x`.
   */
  lemma InsertKeepsOrder(raw: seq<Event>, r: seq<nat>, j: nat, x: nat)
    requires InViewOrder(raw, r) && x < |raw| && j <= |r|
    requires forall t :: 0 <= t < |r| ==> r[t] < x
    requires j > 0 ==> Compare(raw[r[j - 1]], raw[x]) <= 0
    requires forall t :: j <= t < |r| ==> Compare(raw[r[t]], raw[x]) > 0
    ensures InViewOrder(raw, r[..j] + [x] + r[j..])
  {
    var r' := r[..j] + [x] + r[j..];
    assert forall t :: 0 <= t < j ==> r'[t] == r[t];
    assert r'[j] == x;
    assert forall t :: j < t < |r'| ==> r'[t] == r[t - 1];
    forall a, b | 0 <= a < b < |r'|
      ensures Precedes(raw, r'[a], r'[b])
    {
      if b < j {
        assert Precedes(raw, r[a], r[b]);
      } else if b == j {
        assert Precedes(raw, r[j - 1], x);
        if a < j - 1 {
          PrecedesTransitive(raw, r[a], r[j - 1], x);
        }
      } else if a < j {
        assert Precedes(raw, r[a], r[b - 1]);
      } else if a == j {
        CompareSwapped(raw[r[b - 1]], raw[x]);
      } else {
        assert Precedes(raw, r[a - 1], r[b - 1]);
      }
    }
  }

  /** Inserting `x` at position `j` adds exactly `x`. */
  lemma InsertAdds(r: seq<nat>, j: nat, x: nat)
    requires j <= |r|
    ensures |r[..j] + [x] + r[j..]| == |r| + 1
    ensures forall y :: y in r[..j] + [x] + r[j..] <==> y in r || y == x
  {
    assert r == r[..j] + r[j..];
  }

  /**
   * Where a stable insertion puts `x`: scanning back from the end, past every
   * element the comparator ranks strictly above `x`.
   */
  method InsertionPoint(raw: seq<Event>, r: seq<nat>, x: nat) returns (j: nat)
    requires IndicesOf(raw, r) && x < |raw|
    ensures j <= |r|
    ensures j > 0 ==> Compare(raw[r[j - 1]], raw[x]) <= 0
    ensures forall t :: j <= t < |r| ==> Compare(raw[r[t]], raw[x]) > 0
  {
    j := |r|;
    while j > 0 && Compare(raw[r[j - 1]], raw[x]) > 0
      invariant 0 <= j <= |r|
      invariant forall t :: j <= t < |r| ==> Compare(raw[r[t]], raw[x]) > 0
    {
      j := j - 1;
    }
  }

  /**
   * One step of the stable sort: `x`, later in raw order than everything in
   * `r`, goes after every element the comparator does not rank above it.
   */
  method InsertInOrder(raw: seq<Event>, r: seq<nat>, x: nat) returns (r': seq<nat>)
    requires InViewOrder(raw, r) && x < |raw|
    requires forall t :: 0 <= t < |r| ==> r[t] < x
    ensures |r'| == |r| + 1
    ensures forall y :: y in r' <==> y in r || y == x
    ensures InViewOrder(raw, r')
  {
    var j := InsertionPoint(raw, r, x);
    InsertKeepsOrder(raw, r, j, x);
    InsertAdds(r, j, x);
    r' := r[..j] + [x] + r[j..];
  }

  /**
   * `this.messages.sort(...)` on a list in raw order: a stable insertion
   * sort by the comparator. Because the list starts in raw order, stability
   * is tie-breaking by raw index.
   */
  method SortView(raw: seq<Event>, m: seq<nat>) returns (r: seq<nat>)
    requires IndicesOf(raw, m)
    requires Increasing(m)
    ensures |r| == |m|
    ensures forall x :: x in r <==> x in m
    ensures InViewOrder(raw, r)
  {
    r := [];
    var i := 0;
    while i < |m|
      invariant i <= |m|
      invariant |r| == i
      invariant forall x :: x in r <==> x in m[..i]
      invariant InViewOrder(raw, r)
    {
      var x := m[i];
      assert forall t :: 0 <= t < |r| ==> r[t] < x by {
        forall t | 0 <= t < |r|
          ensures r[t] < x
        {
          assert r[t] in m[..i];
        }
      }
      r := InsertInOrder(raw, r, x);
      assert m[..i + 1] == m[..i] + [x];
      i := i + 1;
    }
    assert m[..i] == m;
  }
}
