/** Half-open ranges of tags or linear addresses, and the sorted, non-overlapping
    key sequences of the range maps the synchronization validator walks. */
module Ranges {

  /** A half-open range [begin, end). The source's ranges are over 64-bit unsigned
      integers; here they are unbounded naturals. */
  datatype Range = Range(begin: nat, end: nat) {
    /** `valid()`: the bounds are ordered (an empty range is valid). */
    predicate Valid() { begin <= end }
    /** `empty()` */
    predicate Empty() { begin == end }
    /** `non_empty()` */
    predicate NonEmpty() { begin < end }
    /** `includes(x)` */
    predicate Contains(x: nat) { begin <= x < end }
    /** `size()` */
    function Size(): nat requires Valid() { end - begin }
    /** `intersects(other)` */
    predicate Intersects(other: Range) { NonEmpty() && other.NonEmpty() && begin < other.end && other.begin < end }
  }

  /** `KeyType()`: the default, empty range that generators use to signal their end. */
  const EmptyRange := Range(0, 0)

  function Max(a: nat, b: nat): nat { if a < b then b else a }
  function Min(a: nat, b: nat): nat { if a < b then a else b }

  /** `a & b`: the intersection, with every empty result normalised to EmptyRange. */
  function Intersect(a: Range, b: Range): (r: Range)
    ensures r.Valid()
    ensures r.NonEmpty() <==> a.Intersects(b)
    ensures r.NonEmpty() ==> r.begin == Max(a.begin, b.begin) && r.end == Min(a.end, b.end)
    ensures r.Empty() ==> r == EmptyRange
  {
    var lo := Max(a.begin, b.begin);
    var hi := Min(a.end, b.end);
    if lo < hi then Range(lo, hi) else EmptyRange
  }

  /** A point lies in the intersection exactly when it lies in both ranges. */
  lemma IntersectContains(a: Range, b: Range, x: nat)
    ensures Intersect(a, b).Contains(x) <==> a.Contains(x) && b.Contains(x)
  {
  }

  /** `MakeRange(offset, size)`: the range [offset, offset + size). */
  function MakeRange(offset: nat, size: nat): (r: Range)
    ensures r.Valid() && r.Size() == size && r.begin == offset
  {
    Range(offset, offset + size)
  }

  /** The keys of a range map: each non-empty, in increasing order, pairwise disjoint. */
  ghost predicate SortedDisjoint(keys: seq<Range>) {
    (forall i :: 0 <= i < |keys| ==> keys[i].NonEmpty()) && Chained(keys)
  }

  /** Each range ends no later than the next one begins. */
  predicate Chained(keys: seq<Range>) {
    |keys| <= 1 || (keys[0].end <= keys[1].begin && Chained(keys[1..]))
  }

  /** In sorted keys every earlier range ends no later than a later one begins. */
  lemma {:induction false} Ordered(keys: seq<Range>, i: nat, j: nat)
    requires SortedDisjoint(keys) && i < j < |keys|
    ensures keys[i].end <= keys[j].begin
    decreases j
  {
    var tail := keys[1..];
    assert SortedDisjoint(tail) by {
      assert forall k :: 0 <= k < |tail| ==> tail[k] == keys[k + 1];
    }
    if i > 0 {
      Ordered(tail, i - 1, j - 1);
    } else if j > 1 {
      Ordered(tail, 0, j - 1);
    }
  }

  /** In sorted keys begins are increasing too. */
  lemma OrderedBegins(keys: seq<Range>, i: nat, j: nat)
    requires SortedDisjoint(keys) && i <= j < |keys|
    ensures keys[i].begin <= keys[j].begin
  {
    if i < j { Ordered(keys, i, j); }
  }

  /** A range followed by sorted keys that all begin no earlier than its end. */
  lemma {:induction false} SortedCons(r: Range, keys: seq<Range>)
    requires r.NonEmpty() && SortedDisjoint(keys)
    requires forall i :: 0 <= i < |keys| ==> r.end <= keys[i].begin
    ensures SortedDisjoint([r] + keys)
  {
    var s := [r] + keys;
    assert s[1..] == keys;
    assert forall i :: 0 < i < |s| ==> s[i] == keys[i - 1];
  }

  /** `lower_bound(key)` of a range map, for a key starting at `x`: the first
      position whose range ends after `x` (|keys| when there is none). */
  function LowerBound(keys: seq<Range>, x: nat): (i: nat)
    ensures i <= |keys|
    ensures forall j :: 0 <= j < i ==> keys[j].end <= x
    ensures i < |keys| ==> x < keys[i].end
  {
    if |keys| == 0 then 0
    else if x < keys[0].end then 0
    else 1 + LowerBound(keys[1..], x)
  }

  /** In sorted keys, every position from the lower bound on ends after `x`. */
  lemma LowerBoundSuffix(keys: seq<Range>, x: nat, j: nat)
    requires SortedDisjoint(keys)
    requires LowerBound(keys, x) <= j < |keys|
    ensures x < keys[j].end
  {
    var lb := LowerBound(keys, x);
    if lb < j {
      Ordered(keys, lb, j);
    }
  }

  /** A position whose range ends at or before `x` lies before the lower bound. */
  lemma LowerBoundFrom(keys: seq<Range>, x: nat, from: nat)
    requires SortedDisjoint(keys)
    requires from < |keys| && keys[from].end <= x
    ensures from < LowerBound(keys, x)
  {
    var lb := LowerBound(keys, x);
    if lb <= from {
      LowerBoundSuffix(keys, x, from);
    }
  }

  /** The key at position `i`, or EmptyRange past the end
      (`pos != cend() ? pos->first : KeyType()`). */
  function KeyAt(keys: seq<Range>, i: nat): (r: Range)
    ensures i < |keys| ==> r == keys[i]
    ensures |keys| <= i ==> r == EmptyRange
  {
    if i < |keys| then keys[i] else EmptyRange
  }

  /** A point lies in one of the ranges. */
  ghost predicate InSome(keys: seq<Range>, x: nat) {
    exists i :: 0 <= i < |keys| && keys[i].Contains(x)
  }

  /** A point lies in a range followed by more ranges exactly when it lies in
      the first or in one of the rest. */
  lemma InSomeCons(r: Range, rest: seq<Range>, x: nat)
    ensures InSome([r] + rest, x) <==> r.Contains(x) || InSome(rest, x)
  {
    var s := [r] + rest;
    assert s[0] == r;
    if InSome(rest, x) {
      var i :| 0 <= i < |rest| && rest[i].Contains(x);
      assert s[i + 1] == rest[i];
    }
    if InSome(s, x) {
      var i :| 0 <= i < |s| && s[i].Contains(x);
      if i > 0 {
        assert rest[i - 1] == s[i];
        assert InSome(rest, x);
      } else {
        assert s[0] == r;
      }
    }
  }

  /** Whether any of the ranges has a hazard, for a hazard check given as a predicate. */
  function AnyHazard(ranges: seq<Range>, hazard: Range -> bool): (r: bool)
    ensures r <==> exists i :: 0 <= i < |ranges| && hazard(ranges[i])
  {
    if |ranges| == 0 then false
    else AnyHazard(ranges[..|ranges| - 1], hazard) || hazard(ranges[|ranges| - 1])
  }

  /** Checking one more range adds exactly its own hazard. */
  lemma AnyHazardSnoc(ranges: seq<Range>, r: Range, hazard: Range -> bool)
    ensures AnyHazard(ranges + [r], hazard) == (AnyHazard(ranges, hazard) || hazard(r))
  {
    assert (ranges + [r])[..|ranges|] == ranges;
  }
}
