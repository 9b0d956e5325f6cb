/** The forward-only range generators of the synchronization validator:
    `MapRangesRangeGenerator` yields the intersections of one query range with
    the keys of a range map; `FilteredGeneratorGenerator` yields the
    intersections of another generator's ranges with the keys of a range map.
    Both are "one time through" cursors: the current range being empty means
    the end.

    A range map is represented by its keys, a `SortedDisjoint` sequence. The
    generator wrapped by `FilteredGeneratorGenerator` is represented by the
    stream of ranges it yields from its current position: non-empty, strictly
    increasing and disjoint, again a `SortedDisjoint` sequence, with a cursor
    into it; `++gen_` advances that cursor and `*gen_` is the range under it
    (`EmptyRange` past the end). */
module RangeGenerators {
  import opened Ranges
  import opened Containers

  // ---------------------------------------------------------------------------
  // MapRangesRangeGenerator
  // ---------------------------------------------------------------------------

  /** The first position at or after `i` whose key no longer intersects `range`. */
  function ScanEnd(keys: seq<Range>, range: Range, i: nat): (u: nat)
    requires i <= |keys|
    ensures i <= u <= |keys|
    ensures forall k :: i <= k < u ==> keys[k].Intersects(range)
    ensures u < |keys| ==> !keys[u].Intersects(range)
    decreases |keys| - i
  {
    if i < |keys| && keys[i].Intersects(range) then ScanEnd(keys, range, i + 1) else i
  }

  /** The position just past the block of keys that intersect `range`. */
  function UpperIndex(keys: seq<Range>, range: Range): nat
    ensures LowerBound(keys, range.begin) <= UpperIndex(keys, range) <= |keys|
  {
    ScanEnd(keys, range, LowerBound(keys, range.begin))
  }

  /** The keys that intersect a range form one contiguous block, starting at the
      position the generator seeks to: a key intersects the query range exactly
      when its position lies in [LowerBound, UpperIndex). */
  lemma IntersectingBlock(keys: seq<Range>, range: Range, j: nat)
    requires SortedDisjoint(keys)
    requires j < |keys|
    ensures keys[j].Intersects(range) <==>
      LowerBound(keys, range.begin) <= j < UpperIndex(keys, range)
  {
    var lb, ub := LowerBound(keys, range.begin), UpperIndex(keys, range);
    if ub <= j && ub < |keys| {
      LowerBoundSuffix(keys, range.begin, ub);
      if ub < j {
        Ordered(keys, ub, j);
      }
    }
  }

  /** "Empty means end" for MapRangesRangeGenerator: from its seek position on, the
      current range is non-empty exactly until the cursor leaves the block of keys
      that intersect the query, so when it first reads empty every intersecting key
      has been visited and no later key intersects. */
  lemma MapRangesEmptyMeansEnd(keys: seq<Range>, range: Range, pos: nat)
    requires SortedDisjoint(keys)
    requires LowerBound(keys, range.begin) <= pos <= |keys|
    ensures Intersect(range, KeyAt(keys, pos)).NonEmpty() <==> pos < UpperIndex(keys, range)
    ensures Intersect(range, KeyAt(keys, pos)).Empty() ==>
      forall j :: pos <= j < |keys| ==> !keys[j].Intersects(range)
  {
    if pos < |keys| {
      IntersectingBlock(keys, range, pos);
    }
    forall j | pos <= j < |keys|
      ensures Intersect(range, KeyAt(keys, pos)).Empty() ==> !keys[j].Intersects(range)
    {
      IntersectingBlock(keys, range, j);
    }
  }

  /** Successive outputs of a cursor over sorted keys move strictly forward. */
  lemma ForwardOverKeys(keys: seq<Range>, range: Range, p: nat, q: nat)
    requires SortedDisjoint(keys)
    requires p < q
    requires Intersect(range, KeyAt(keys, p)).NonEmpty() && Intersect(range, KeyAt(keys, q)).NonEmpty()
    ensures Intersect(range, KeyAt(keys, p)).end <= Intersect(range, KeyAt(keys, q)).begin
  {
    Ordered(keys, p, q);
  }

  class MapRangesRangeGenerator {
    /** `range_`: the query range. */
    const range: Range
    /** the keys of `*map_` */
    const keys: seq<Range>
    /** `map_pos_` */
    var pos: nat
    /** `current_` */
    var current: Range

    ghost predicate Valid()
      reads this
    {
      && SortedDisjoint(keys)
      && LowerBound(keys, range.begin) <= pos <= |keys|
      && current == Intersect(range, KeyAt(keys, pos))
    }

    /** `MapRangesRangeGenerator(filter, range)`: seek to the first key that does
        not end before the query and intersect it with the query. */
    constructor (filter: seq<Range>, query: Range)
      requires SortedDisjoint(filter)
      ensures Valid()
      ensures keys == filter && range == query
      ensures pos == LowerBound(filter, query.begin)
    {
      range := query;
      keys := filter;
      new;
      SeekBegin();
    }

    /** `SeekBegin()` */
    method SeekBegin()
      requires SortedDisjoint(keys)
      modifies this
      ensures Valid() && pos == LowerBound(keys, range.begin)
    {
      pos := LowerBound(keys, range.begin);
      UpdateCurrent();
    }

    /** `UpdateCurrent()`: the query intersected with the key under the cursor, or
        the empty range at the end of the map. */
    method UpdateCurrent()
      requires pos <= |keys|
      modifies this`current
      ensures current == Intersect(range, KeyAt(keys, pos))
    {
      if pos < |keys| {
        current := Intersect(range, keys[pos]);
      } else {
        current := EmptyRange;
      }
    }

    /** `operator++`: step to the next key; incrementing the end iterator is
        undefined in the source, so the cursor must not be at the end. */
    method Next()
      requires Valid() && pos < |keys|
      modifies this
      ensures Valid() && pos == old(pos) + 1
      ensures old(current).NonEmpty() && current.NonEmpty() ==> old(current).end <= current.begin
    {
      pos := pos + 1;
      UpdateCurrent();
      if old(current).NonEmpty() && current.NonEmpty() {
        ForwardOverKeys(keys, range, old(pos), pos);
      }
    }

    /** `PredicatedIncrement(pred)`: step at least once, then keep stepping over
        keys that still intersect the query but that `pred` rejects. The predicate
        receives the map iterator; here it receives the position. */
    method PredicatedIncrement(pred: nat -> bool)
      requires Valid() && pos < |keys|
      modifies this
      ensures Valid() && old(pos) < pos
      ensures forall p :: old(pos) < p < pos ==> keys[p].Intersects(range) && !pred(p)
      ensures pos == |keys| || !keys[pos].Intersects(range) || pred(pos)
    {
      pos := pos + 1;
      while pos < |keys| && keys[pos].Intersects(range) && !pred(pos)
        invariant old(pos) < pos <= |keys|
        invariant forall p :: old(pos) < p < pos ==> keys[p].Intersects(range) && !pred(p)
        decreases |keys| - pos
      {
        pos := pos + 1;
      }
      UpdateCurrent();
    }
  }

  // ---------------------------------------------------------------------------
  // FilteredGeneratorGenerator: cursor arithmetic shared by both versions
  // ---------------------------------------------------------------------------

  /** `kRetryLimit`: single steps tried before `FastForwardFilter` seeks. */
  const RetryLimit: nat := 2

  /** The filter position `FastForwardFilter(range)` reaches from `fp` when the
      range starts at `x`: step while the key under the cursor ends at or before
      `x`, but after `RetryLimit` steps seek with `lower_bound` instead. The
      walk-then-seek heuristic is only an optimisation: the position reached is
      the first one at or after `fp` whose key ends after `x`. */
  function FastForwardFilterPos(filter: seq<Range>, fp: nat, x: nat, retry: nat): (p: nat)
    requires SortedDisjoint(filter) && fp <= |filter|
    ensures p == Max(fp, LowerBound(filter, x))
    decreases |filter| - fp
  {
    var fr := KeyAt(filter, fp);
    if !fr.Empty() && fr.end <= x then
      LowerBoundFrom(filter, x, fp);
      if retry < RetryLimit then FastForwardFilterPos(filter, fp + 1, x, retry + 1)
      else LowerBound(filter, x)
    else fp
  }

  /** The generator position `FastForwardGen(range)` reaches from `gp` when the
      range starts at `x`: step while the generated range ends at or before `x`,
      which reaches the first position at or after `gp` whose range ends after `x`. */
  function FastForwardGenPos(gen: seq<Range>, gp: nat, x: nat): (p: nat)
    requires SortedDisjoint(gen) && gp <= |gen|
    ensures p == Max(gp, LowerBound(gen, x))
    decreases |gen| - gp
  {
    var gr := KeyAt(gen, gp);
    if !gr.Empty() && gr.end <= x then
      LowerBoundFrom(gen, x, gp);
      FastForwardGenPos(gen, gp + 1, x)
    else gp
  }

  /** `FastForwardFilter(range)`'s loop over the filter cursor. */
  method FastForwardFilter(filter: seq<Range>, fp: nat, range: Range) returns (p: nat)
    requires SortedDisjoint(filter) && fp <= |filter|
    ensures p == FastForwardFilterPos(filter, fp, range.begin, 0)
  {
    p := fp;
    var filterRange := KeyAt(filter, p);
    var retryCount: nat := 0;
    while !filterRange.Empty() && filterRange.end <= range.begin
      invariant p <= |filter| && filterRange == KeyAt(filter, p)
      invariant FastForwardFilterPos(filter, p, range.begin, retryCount) == FastForwardFilterPos(filter, fp, range.begin, 0)
      decreases |filter| - p
    {
      if retryCount < RetryLimit {
        p := p + 1;
        filterRange := KeyAt(filter, p);
        retryCount := retryCount + 1;
      } else {
        // walked enough: seek
        LowerBoundFrom(filter, range.begin, p);
        p := LowerBound(filter, range.begin);
        break;
      }
    }
  }

  /** `FastForwardGen(range)`'s loop over the wrapped generator. */
  method FastForwardGen(gen: seq<Range>, gp: nat, range: Range) returns (p: nat)
    requires SortedDisjoint(gen) && gp <= |gen|
    ensures p == FastForwardGenPos(gen, gp, range.begin)
  {
    p := gp;
    var genRange := KeyAt(gen, p);
    while !genRange.Empty() && genRange.end <= range.begin
      invariant p <= |gen| && genRange == KeyAt(gen, p)
      invariant FastForwardGenPos(gen, p, range.begin) == FastForwardGenPos(gen, gp, range.begin)
      decreases |gen| - p
    {
      p := p + 1;
      genRange := KeyAt(gen, p);
    }
  }

  /** Both cursors of a filtered generator. */
  datatype Cursor = Cursor(genPos: nat, filterPos: nat)

  /** The state of a filtered generator: cursors and `current_`. */
  datatype GenState = GenState(cursor: Cursor, current: Range)

  ghost predicate Streams(filter: seq<Range>, gen: seq<Range>) {
    SortedDisjoint(filter) && SortedDisjoint(gen)
  }

  ghost predicate InBounds(filter: seq<Range>, gen: seq<Range>, c: Cursor) {
    c.genPos <= |gen| && c.filterPos <= |filter|
  }

  /** The intersection of the ranges under both cursors. */
  function CurrentOf(filter: seq<Range>, gen: seq<Range>, c: Cursor): Range {
    Intersect(KeyAt(gen, c.genPos), KeyAt(filter, c.filterPos))
  }

  /** A point lies in a range of both streams. */
  ghost predicate InBoth(filter: seq<Range>, gen: seq<Range>, x: nat) {
    InSome(gen, x) && InSome(filter, x)
  }

  /** A range is the intersection of one generated range and one filter key. */
  ghost predicate IsPairIntersection(filter: seq<Range>, gen: seq<Range>, r: Range) {
    exists i, j :: 0 <= i < |gen| && 0 <= j < |filter| && r == Intersect(gen[i], filter[j])
  }

  /** `AdvanceFilter()` on the cursors: step the filter, then fast-forward the
      wrapped generator to the new key (a valid key; past the end that is the
      empty range, which is valid too). */
  function AdvanceFilterCursor(filter: seq<Range>, gen: seq<Range>, c: Cursor): (c': Cursor)
    requires Streams(filter, gen) && InBounds(filter, gen, c) && c.filterPos < |filter|
    ensures InBounds(filter, gen, c')
    ensures c'.filterPos == c.filterPos + 1
    ensures c'.genPos == Max(c.genPos, LowerBound(gen, KeyAt(filter, c'.filterPos).begin))
  {
    var fp := c.filterPos + 1;
    var fr := KeyAt(filter, fp);
    Cursor(if fr.Valid() then FastForwardGenPos(gen, c.genPos, fr.begin) else c.genPos, fp)
  }

  /** `AdvanceGen()` on the cursors: step the wrapped generator, then fast-forward
      the filter to the new range. */
  function AdvanceGenCursor(filter: seq<Range>, gen: seq<Range>, c: Cursor): (c': Cursor)
    requires Streams(filter, gen) && InBounds(filter, gen, c) && c.genPos < |gen|
    ensures InBounds(filter, gen, c')
    ensures c'.genPos == c.genPos + 1
    ensures c'.filterPos == Max(c.filterPos, LowerBound(filter, KeyAt(gen, c'.genPos).begin))
  {
    var gp := c.genPos + 1;
    var gr := KeyAt(gen, gp);
    Cursor(gp, if gr.Valid() then FastForwardFilterPos(filter, c.filterPos, gr.begin, 0) else c.filterPos)
  }

  // ---------------------------------------------------------------------------
  // FilteredGeneratorGenerator as the source writes it
  // ---------------------------------------------------------------------------

  /** `SeekBegin()` as written: with the wrapped generator at its end, the filter
      cursor goes to the end; otherwise it seeks to the first key not ending before
      the generated range, and `current_` is the intersection of those two ranges
      even when that is empty (which reads as the end). */
  function AsWrittenStart(filter: seq<Range>, gen: seq<Range>): (s: GenState)
    ensures InBounds(filter, gen, s.cursor)
  {
    var gr := KeyAt(gen, 0);
    if gr.Empty() then GenState(Cursor(0, |filter|), EmptyRange)
    else
      var fp := LowerBound(filter, gr.begin);
      GenState(Cursor(0, fp), Intersect(gr, KeyAt(filter, fp)))
  }

  /** The loop of `operator++` as written, after its first line. `gr` and `fr` are
      the loop's local `gen_range` / `filter_range`: only the one that was advanced
      is refreshed, while the other cursor may have been fast-forwarded under it.
      `None` stands for an increment of a cursor that is already at its end, which
      the source leaves undefined. */
  function AsWrittenLoop(filter: seq<Range>, gen: seq<Range>, c: Cursor, gr: Range, fr: Range, cur: Range): (r: Option<GenState>)
    requires Streams(filter, gen) && InBounds(filter, gen, c)
    ensures r.Some? ==> InBounds(filter, gen, r.value.cursor)
    decreases (|gen| - c.genPos) + (|filter| - c.filterPos)
  {
    if gr.NonEmpty() && fr.NonEmpty() && cur.Empty() then
      if gr.end > fr.end then
        // filter_range = AdvanceFilter();
        if c.filterPos == |filter| then None
        else
          var c' := AdvanceFilterCursor(filter, gen, c);
          var fr' := KeyAt(filter, c'.filterPos);
          AsWrittenLoop(filter, gen, c', gr, fr', Intersect(gr, fr'))
      else
        // gen_range = AdvanceGen();
        if c.genPos == |gen| then None
        else
          var c' := AdvanceGenCursor(filter, gen, c);
          var gr' := KeyAt(gen, c'.genPos);
          AsWrittenLoop(filter, gen, c', gr', fr, Intersect(gr', fr))
    else Some(GenState(c, cur))
  }

  /** `operator++` as written: start the loop from the ranges under the cursors
      with `current_` reset to empty. */
  function AsWrittenIncrement(filter: seq<Range>, gen: seq<Range>, c: Cursor): Option<GenState>
    requires Streams(filter, gen) && InBounds(filter, gen, c)
  {
    AsWrittenLoop(filter, gen, c, KeyAt(gen, c.genPos), KeyAt(filter, c.filterPos), EmptyRange)
  }

  /** Whatever the written loop emits is still the intersection of one generated
      range and one filter key, even when its local ranges are stale: the locals
      are always ranges once read under some cursor position. */
  lemma {:induction false} AsWrittenLoopSound(filter: seq<Range>, gen: seq<Range>, c: Cursor, gr: Range, fr: Range, cur: Range, gi: nat, fi: nat)
    requires Streams(filter, gen) && InBounds(filter, gen, c)
    requires gr == KeyAt(gen, gi) && fr == KeyAt(filter, fi)
    requires cur == EmptyRange || cur == Intersect(gr, fr)
    ensures var r := AsWrittenLoop(filter, gen, c, gr, fr, cur);
      r.Some? && r.value.current.NonEmpty() ==> IsPairIntersection(filter, gen, r.value.current)
    decreases (|gen| - c.genPos) + (|filter| - c.filterPos)
  {
    if gr.NonEmpty() && fr.NonEmpty() && cur.Empty() {
      if gr.end > fr.end {
        if c.filterPos < |filter| {
          var c' := AdvanceFilterCursor(filter, gen, c);
          var fr' := KeyAt(filter, c'.filterPos);
          AsWrittenLoopSound(filter, gen, c', gr, fr', Intersect(gr, fr'), gi, c'.filterPos);
        }
      } else {
        if c.genPos < |gen| {
          var c' := AdvanceGenCursor(filter, gen, c);
          var gr' := KeyAt(gen, c'.genPos);
          AsWrittenLoopSound(filter, gen, c', gr', fr, Intersect(gr', fr), c'.genPos, fi);
        }
      }
    } else if cur.NonEmpty() {
      assert cur == Intersect(gen[gi], filter[fi]);
    }
  }

  /** Every range a written increment yields is one generated range intersected
      with one filter key, so it lies inside both. */
  lemma AsWrittenIncrementSound(filter: seq<Range>, gen: seq<Range>, c: Cursor)
    requires Streams(filter, gen) && InBounds(filter, gen, c)
    ensures var r := AsWrittenIncrement(filter, gen, c);
      r.Some? && r.value.current.NonEmpty() ==> IsPairIntersection(filter, gen, r.value.current)
  {
    AsWrittenLoopSound(filter, gen, c, KeyAt(gen, c.genPos), KeyAt(filter, c.filterPos), EmptyRange, c.genPos, c.filterPos);
  }

  /** Two pair intersections read at ordered, distinct positions follow each
      other: the earlier one ends before the later one begins. */
  lemma PairForward(filter: seq<Range>, gen: seq<Range>, gi0: nat, fi0: nat, a: nat, b: nat)
    requires Streams(filter, gen)
    requires gi0 <= a < |gen| && fi0 <= b < |filter| && (a != gi0 || b != fi0)
    ensures Intersect(gen[gi0], filter[fi0]).NonEmpty() && Intersect(gen[a], filter[b]).NonEmpty()
      ==> Intersect(gen[gi0], filter[fi0]).end <= Intersect(gen[a], filter[b]).begin
  {
    if a != gi0 {
      Ordered(gen, gi0, a);
    } else {
      Ordered(filter, fi0, b);
    }
  }

  /** The written loop reads its locals only at cursor positions, and the cursors
      never move back. Started from locals read at or after (gi0, fi0), it stops on
      a range read at positions (a, b) at or after (gi0, fi0), not both equal to
      them, and at or before the cursors it ends with. */
  lemma {:induction false} AsWrittenLoopPositions(filter: seq<Range>, gen: seq<Range>, c: Cursor, gr: Range, fr: Range, cur: Range,
                                                  gi: nat, fi: nat, gi0: nat, fi0: nat) returns (a: nat, b: nat)
    requires Streams(filter, gen) && InBounds(filter, gen, c)
    requires gr == KeyAt(gen, gi) && fr == KeyAt(filter, fi)
    requires gi0 <= gi <= c.genPos && fi0 <= fi <= c.filterPos
    requires cur == EmptyRange || (cur == Intersect(gr, fr) && (gi != gi0 || fi != fi0))
    ensures var r := AsWrittenLoop(filter, gen, c, gr, fr, cur);
      r.Some? && r.value.current.NonEmpty() ==>
        && gi0 <= a <= r.value.cursor.genPos && a < |gen|
        && fi0 <= b <= r.value.cursor.filterPos && b < |filter|
        && (a != gi0 || b != fi0)
        && r.value.current == Intersect(gen[a], filter[b])
    decreases (|gen| - c.genPos) + (|filter| - c.filterPos)
  {
    a, b := gi, fi;
    if gr.NonEmpty() && fr.NonEmpty() && cur.Empty() {
      if gr.end > fr.end {
        if c.filterPos < |filter| {
          var c' := AdvanceFilterCursor(filter, gen, c);
          var fr' := KeyAt(filter, c'.filterPos);
          a, b := AsWrittenLoopPositions(filter, gen, c', gr, fr', Intersect(gr, fr'), gi, c'.filterPos, gi0, fi0);
        }
      } else {
        if c.genPos < |gen| {
          var c' := AdvanceGenCursor(filter, gen, c);
          var gr' := KeyAt(gen, c'.genPos);
          a, b := AsWrittenLoopPositions(filter, gen, c', gr', fr, Intersect(gr', fr), c'.genPos, fi, gi0, fi0);
        }
      }
    }
  }

  /** The written `++` still moves strictly forward: when the current range was
      read at positions (gi0, fi0) at or before the cursors, the next non-empty
      range is read at positions (a, b) at or before the new cursors, and it
      begins no earlier than the current one ends. */
  lemma AsWrittenIncrementForward(filter: seq<Range>, gen: seq<Range>, c: Cursor, gi0: nat, fi0: nat) returns (a: nat, b: nat)
    requires Streams(filter, gen) && InBounds(filter, gen, c)
    requires gi0 <= c.genPos && fi0 <= c.filterPos
    ensures var r := AsWrittenIncrement(filter, gen, c);
      r.Some? && r.value.current.NonEmpty() ==>
        && a <= r.value.cursor.genPos && a < |gen|
        && b <= r.value.cursor.filterPos && b < |filter|
        && r.value.current == Intersect(gen[a], filter[b])
        && (gi0 < |gen| && fi0 < |filter| && Intersect(gen[gi0], filter[fi0]).NonEmpty()
            ==> Intersect(gen[gi0], filter[fi0]).end <= r.value.current.begin)
  {
    a, b := AsWrittenLoopPositions(filter, gen, c, KeyAt(gen, c.genPos), KeyAt(filter, c.filterPos), EmptyRange,
                                   c.genPos, c.filterPos, gi0, fi0);
    var r := AsWrittenIncrement(filter, gen, c);
    if r.Some? && r.value.current.NonEmpty() && gi0 < |gen| && fi0 < |filter| {
      PairForward(filter, gen, gi0, fi0, a, b);
    }
  }

  /** The generator as the source writes it. */
  class FilteredGeneratorGenerator {
    /** the keys of `*filter_` */
    const filter: seq<Range>
    /** the ranges `gen_` yields from the position it was copied at */
    const gen: seq<Range>
    /** the position of `gen_` in that stream */
    var genPos: nat
    /** `filter_pos_` */
    var filterPos: nat
    /** `current_` */
    var current: Range
    /** the positions of the generated range and the filter key `current_` was read from */
    ghost var currentGenPos: nat
    ghost var currentFilterPos: nat

    /** Both streams are sorted and the cursors lie within them. */
    ghost predicate CursorsValid()
      reads this
    {
      Streams(filter, gen) && InBounds(filter, gen, Cursor(genPos, filterPos))
    }

    /** ... and a non-empty `current_` is one generated range met with one filter
        key, read at positions at or before the cursors. */
    ghost predicate Valid()
      reads this
    {
      && CursorsValid()
      && (current.NonEmpty() ==>
            && currentGenPos <= genPos && currentGenPos < |gen|
            && currentFilterPos <= filterPos && currentFilterPos < |filter|
            && current == Intersect(gen[currentGenPos], filter[currentFilterPos]))
    }

    function State(): GenState
      reads this
    {
      GenState(Cursor(genPos, filterPos), current)
    }

    /** `FilteredGeneratorGenerator(filter, gen)`: copy the generator and `SeekBegin()`. */
    constructor (filterKeys: seq<Range>, genStream: seq<Range>)
      requires Streams(filterKeys, genStream)
      ensures Valid() && filter == filterKeys && gen == genStream
      ensures State() == AsWrittenStart(filterKeys, genStream)
    {
      filter := filterKeys;
      gen := genStream;
      genPos := 0;
      new;
      var genRange := KeyAt(gen, genPos);
      if genRange.Empty() {
        current := EmptyRange;
        filterPos := |filter|;
      } else {
        filterPos := LowerBound(filter, genRange.begin);
        current := Intersect(genRange, KeyAt(filter, filterPos));
      }
      currentGenPos, currentFilterPos := genPos, filterPos;
    }

    /** `AdvanceFilter()`: step the filter cursor, then fast-forward the wrapped
        generator to the new key. */
    method AdvanceFilter() returns (filterRange: Range)
      requires CursorsValid() && filterPos < |filter|
      modifies this`filterPos, this`genPos
      ensures CursorsValid()
      ensures Cursor(genPos, filterPos) == AdvanceFilterCursor(filter, gen, old(Cursor(genPos, filterPos)))
      ensures filterRange == KeyAt(filter, filterPos)
    {
      filterPos := filterPos + 1;
      filterRange := KeyAt(filter, filterPos);
      if filterRange.Valid() {
        genPos := FastForwardGen(gen, genPos, filterRange);
      }
    }

    /** `AdvanceGen()`: step the wrapped generator, then fast-forward the filter
        cursor to the new range. */
    method AdvanceGen() returns (genRange: Range)
      requires CursorsValid() && genPos < |gen|
      modifies this`filterPos, this`genPos
      ensures CursorsValid()
      ensures Cursor(genPos, filterPos) == AdvanceGenCursor(filter, gen, old(Cursor(genPos, filterPos)))
      ensures genRange == KeyAt(gen, genPos)
    {
      genPos := genPos + 1;
      genRange := KeyAt(gen, genPos);
      if genRange.Valid() {
        filterPos := FastForwardFilter(filter, filterPos, genRange);
      }
    }

    /** `operator++` as written. Its caller must not drive it into incrementing a
        cursor that is already at its end (undefined in the source). */
    method Next()
      requires Valid() && AsWrittenIncrement(filter, gen, Cursor(genPos, filterPos)).Some?
      modifies this
      ensures Valid()
      ensures Some(State()) == AsWrittenIncrement(filter, gen, old(Cursor(genPos, filterPos)))
      ensures old(current).NonEmpty() && current.NonEmpty() ==> old(current).end <= current.begin
    {
      ghost var target := AsWrittenIncrement(filter, gen, Cursor(genPos, filterPos));
      ghost var gi0, fi0 := genPos, filterPos;
      if current.NonEmpty() {
        gi0, fi0 := currentGenPos, currentFilterPos;
      }
      ghost var a, b := AsWrittenIncrementForward(filter, gen, Cursor(genPos, filterPos), gi0, fi0);
      var genRange := KeyAt(gen, genPos);
      var filterRange := KeyAt(filter, filterPos);
      current := EmptyRange;
      while genRange.NonEmpty() && filterRange.NonEmpty() && current.Empty()
        invariant CursorsValid() && target.Some?
        invariant AsWrittenLoop(filter, gen, Cursor(genPos, filterPos), genRange, filterRange, current) == target
        decreases (|gen| - genPos) + (|filter| - filterPos)
      {
        if genRange.end > filterRange.end {
          filterRange := AdvanceFilter();
        } else {
          genRange := AdvanceGen();
        }
        current := Intersect(genRange, filterRange);
      }
      currentGenPos, currentFilterPos := a, b;
    }
  }

  // ---------------------------------------------------------------------------
  // FilteredGeneratorGenerator corrected: both local ranges are re-read after
  // every advance, and the constructor advances past an empty first intersection.
  // ---------------------------------------------------------------------------

  /** The loop may stop here: one of the streams is at its end, or the ranges
      under the cursors intersect. */
  predicate Settled(filter: seq<Range>, gen: seq<Range>, c: Cursor) {
    KeyAt(gen, c.genPos).Empty() || KeyAt(filter, c.filterPos).Empty() || CurrentOf(filter, gen, c).NonEmpty()
  }

  /** One loop iteration: advance whichever range ends first (the filter when the
      generated range reaches further), then fast-forward the other cursor. */
  function Step(filter: seq<Range>, gen: seq<Range>, c: Cursor): (c': Cursor)
    requires Streams(filter, gen) && InBounds(filter, gen, c)
    requires KeyAt(gen, c.genPos).NonEmpty() && KeyAt(filter, c.filterPos).NonEmpty()
    ensures InBounds(filter, gen, c')
    ensures c.genPos <= c'.genPos && c.filterPos <= c'.filterPos
    ensures c'.genPos + c'.filterPos > c.genPos + c.filterPos
  {
    if KeyAt(gen, c.genPos).end > KeyAt(filter, c.filterPos).end then AdvanceFilterCursor(filter, gen, c)
    else AdvanceGenCursor(filter, gen, c)
  }

  /** Iterate until settled. */
  function Settle(filter: seq<Range>, gen: seq<Range>, c: Cursor): (c': Cursor)
    requires Streams(filter, gen) && InBounds(filter, gen, c)
    ensures InBounds(filter, gen, c') && Settled(filter, gen, c')
    ensures c.genPos <= c'.genPos && c.filterPos <= c'.filterPos
    decreases (|gen| - c.genPos) + (|filter| - c.filterPos)
  {
    if Settled(filter, gen, c) then c else Settle(filter, gen, Step(filter, gen, c))
  }

  /** `operator++`, corrected. */
  function Increment(filter: seq<Range>, gen: seq<Range>, c: Cursor): (c': Cursor)
    requires Streams(filter, gen) && InBounds(filter, gen, c)
    ensures InBounds(filter, gen, c') && Settled(filter, gen, c')
    ensures c.genPos <= c'.genPos && c.filterPos <= c'.filterPos
    ensures CurrentOf(filter, gen, c).NonEmpty() ==> c'.genPos + c'.filterPos > c.genPos + c.filterPos
  {
    if KeyAt(gen, c.genPos).NonEmpty() && KeyAt(filter, c.filterPos).NonEmpty() then
      Settle(filter, gen, Step(filter, gen, c))
    else c
  }

  /** The constructor, corrected: seek as written, then settle. */
  function Start(filter: seq<Range>, gen: seq<Range>): (c: Cursor)
    requires Streams(filter, gen)
    ensures InBounds(filter, gen, c) && Settled(filter, gen, c)
  {
    var gr := KeyAt(gen, 0);
    if gr.Empty() then Cursor(0, |filter|)
    else Settle(filter, gen, Cursor(0, LowerBound(filter, gr.begin)))
  }

  /** The ranges a corrected generator yields from a settled state until it reads
      empty. */
  function Stream(filter: seq<Range>, gen: seq<Range>, c: Cursor): seq<Range>
    requires Streams(filter, gen) && InBounds(filter, gen, c)
    decreases (|gen| - c.genPos) + (|filter| - c.filterPos)
  {
    var cur := CurrentOf(filter, gen, c);
    if cur.Empty() then [] else [cur] + Stream(filter, gen, Increment(filter, gen, c))
  }

  /** A point lies in a generated range at or after the generator's cursor and
      in a filter key at or after the filter cursor: the generator may still
      yield it. */
  ghost predicate Ahead(filter: seq<Range>, gen: seq<Range>, c: Cursor, x: nat) {
    && (exists k :: c.genPos <= k < |gen| && gen[k].Contains(x))
    && (exists j :: c.filterPos <= j < |filter| && filter[j].Contains(x))
  }

  /** Advancing the filter past a key that ends before the generated range loses
      no common point outside the current intersection. */
  lemma AdvanceFilterKeepsAhead(filter: seq<Range>, gen: seq<Range>, c: Cursor, x: nat)
    requires Streams(filter, gen) && InBounds(filter, gen, c)
    requires c.genPos < |gen| && c.filterPos < |filter| && gen[c.genPos].end > filter[c.filterPos].end
    requires Ahead(filter, gen, c, x) && !CurrentOf(filter, gen, c).Contains(x)
    ensures Ahead(filter, gen, Step(filter, gen, c), x)
  {
    StepFilterCursor(filter, gen, c);
    FilterStepAhead(filter, gen, c, Step(filter, gen, c), x);
  }

  /** The cursors after a step that advances the filter. */
  lemma StepFilterCursor(filter: seq<Range>, gen: seq<Range>, c: Cursor)
    requires Streams(filter, gen) && InBounds(filter, gen, c)
    requires c.genPos < |gen| && c.filterPos < |filter| && gen[c.genPos].end > filter[c.filterPos].end
    ensures Step(filter, gen, c).filterPos == c.filterPos + 1
    ensures Step(filter, gen, c).genPos == Max(c.genPos, LowerBound(gen, KeyAt(filter, c.filterPos + 1).begin))
  {
    assert KeyAt(gen, c.genPos) == gen[c.genPos] && KeyAt(filter, c.filterPos) == filter[c.filterPos];
    assert Step(filter, gen, c) == AdvanceFilterCursor(filter, gen, c);
  }

  /** A common point beyond the current intersection is still ahead once the
      filter has moved to its next key and the generator is fast-forwarded to it. */
  lemma FilterStepAhead(filter: seq<Range>, gen: seq<Range>, c: Cursor, c': Cursor, x: nat)
    requires Streams(filter, gen)
    requires c.genPos < |gen| && c.filterPos < |filter| && gen[c.genPos].end > filter[c.filterPos].end
    requires Ahead(filter, gen, c, x) && !CurrentOf(filter, gen, c).Contains(x)
    requires c'.filterPos == c.filterPos + 1
    requires c'.genPos == Max(c.genPos, LowerBound(gen, KeyAt(filter, c.filterPos + 1).begin))
    ensures Ahead(filter, gen, c', x)
  {
    var gp, fp := c.genPos, c.filterPos;
    var k :| gp <= k < |gen| && gen[k].Contains(x);
    var j :| fp <= j < |filter| && filter[j].Contains(x);
    IntersectContains(gen[gp], filter[fp], x);
    assert j != fp by {
      if j == fp && k > gp { Ordered(gen, gp, k); }
    }
    FilterStepWitness(filter, gen, c, c', x, k, j);
  }

  /** The witnesses `k` and `j` of a common point stay ahead of the cursors after
      the filter has stepped past its current key. */
  lemma FilterStepWitness(filter: seq<Range>, gen: seq<Range>, c: Cursor, c': Cursor, x: nat, k: nat, j: nat)
    requires SortedDisjoint(filter)
    requires c.genPos <= k < |gen| && gen[k].Contains(x)
    requires c.filterPos < j < |filter| && filter[j].Contains(x)
    requires c'.filterPos == c.filterPos + 1
    requires c'.genPos == Max(c.genPos, LowerBound(gen, KeyAt(filter, c.filterPos + 1).begin))
    ensures Ahead(filter, gen, c', x)
  {
    var y := filter[c.filterPos + 1].begin;
    OrderedBegins(filter, c.filterPos + 1, j);
    AtOrAfterLowerBound(gen, y, k);
    AheadAt(filter, gen, c', x, k, j);
  }

  /** Advancing the generator past a range that ends no later than the key loses
      no common point outside the current intersection. */
  lemma AdvanceGenKeepsAhead(filter: seq<Range>, gen: seq<Range>, c: Cursor, x: nat)
    requires Streams(filter, gen) && InBounds(filter, gen, c)
    requires c.genPos < |gen| && c.filterPos < |filter| && gen[c.genPos].end <= filter[c.filterPos].end
    requires Ahead(filter, gen, c, x) && !CurrentOf(filter, gen, c).Contains(x)
    ensures Ahead(filter, gen, Step(filter, gen, c), x)
  {
    StepGenCursor(filter, gen, c);
    GenStepAhead(filter, gen, c, Step(filter, gen, c), x);
  }

  /** The cursors after a step that advances the generator. */
  lemma StepGenCursor(filter: seq<Range>, gen: seq<Range>, c: Cursor)
    requires Streams(filter, gen) && InBounds(filter, gen, c)
    requires c.genPos < |gen| && c.filterPos < |filter| && gen[c.genPos].end <= filter[c.filterPos].end
    ensures Step(filter, gen, c).genPos == c.genPos + 1
    ensures Step(filter, gen, c).filterPos == Max(c.filterPos, LowerBound(filter, KeyAt(gen, c.genPos + 1).begin))
  {
    assert KeyAt(gen, c.genPos) == gen[c.genPos] && KeyAt(filter, c.filterPos) == filter[c.filterPos];
    assert Step(filter, gen, c) == AdvanceGenCursor(filter, gen, c);
  }

  /** A common point beyond the current intersection is still ahead once the
      generator has moved to its next range and the filter is fast-forwarded to it. */
  lemma GenStepAhead(filter: seq<Range>, gen: seq<Range>, c: Cursor, c': Cursor, x: nat)
    requires Streams(filter, gen)
    requires c.genPos < |gen| && c.filterPos < |filter| && gen[c.genPos].end <= filter[c.filterPos].end
    requires Ahead(filter, gen, c, x) && !CurrentOf(filter, gen, c).Contains(x)
    requires c'.genPos == c.genPos + 1
    requires c'.filterPos == Max(c.filterPos, LowerBound(filter, KeyAt(gen, c.genPos + 1).begin))
    ensures Ahead(filter, gen, c', x)
  {
    var gp, fp := c.genPos, c.filterPos;
    var k :| gp <= k < |gen| && gen[k].Contains(x);
    var j :| fp <= j < |filter| && filter[j].Contains(x);
    IntersectContains(gen[gp], filter[fp], x);
    assert k != gp by {
      if k == gp && j > fp { Ordered(filter, fp, j); }
    }
    GenStepWitness(filter, gen, c, c', x, k, j);
  }

  /** The witnesses `k` and `j` of a common point stay ahead of the cursors after
      the generator has stepped past its current range. */
  lemma GenStepWitness(filter: seq<Range>, gen: seq<Range>, c: Cursor, c': Cursor, x: nat, k: nat, j: nat)
    requires SortedDisjoint(gen)
    requires c.genPos < k < |gen| && gen[k].Contains(x)
    requires c.filterPos <= j < |filter| && filter[j].Contains(x)
    requires c'.genPos == c.genPos + 1
    requires c'.filterPos == Max(c.filterPos, LowerBound(filter, KeyAt(gen, c.genPos + 1).begin))
    ensures Ahead(filter, gen, c', x)
  {
    var y := gen[c.genPos + 1].begin;
    OrderedBegins(gen, c.genPos + 1, k);
    AtOrAfterLowerBound(filter, y, j);
    AheadAt(filter, gen, c', x, k, j);
  }

  /** A key reaching past `y` lies at or after `lower_bound(y)`. */
  lemma AtOrAfterLowerBound(keys: seq<Range>, y: nat, j: nat)
    requires j < |keys| && y < keys[j].end
    ensures LowerBound(keys, y) <= j
  {
  }

  /** Witnesses for `Ahead`. */
  lemma AheadAt(filter: seq<Range>, gen: seq<Range>, c: Cursor, x: nat, k: nat, j: nat)
    requires c.genPos <= k < |gen| && gen[k].Contains(x)
    requires c.filterPos <= j < |filter| && filter[j].Contains(x)
    ensures Ahead(filter, gen, c, x)
  {
  }

  /** One corrected step drops exactly the points of the current intersection:
      advancing the range that ends first and fast-forwarding the other loses no
      point that both streams still hold. */
  lemma StepAhead(filter: seq<Range>, gen: seq<Range>, c: Cursor, x: nat)
    requires Streams(filter, gen) && InBounds(filter, gen, c)
    requires KeyAt(gen, c.genPos).NonEmpty() && KeyAt(filter, c.filterPos).NonEmpty()
    ensures Ahead(filter, gen, c, x) <==>
      CurrentOf(filter, gen, c).Contains(x) || Ahead(filter, gen, Step(filter, gen, c), x)
  {
    var gp, fp := c.genPos, c.filterPos;
    IntersectContains(gen[gp], filter[fp], x);
    if Ahead(filter, gen, c, x) && !CurrentOf(filter, gen, c).Contains(x) {
      if gen[gp].end > filter[fp].end {
        AdvanceFilterKeepsAhead(filter, gen, c, x);
      } else {
        AdvanceGenKeepsAhead(filter, gen, c, x);
      }
    }
    if CurrentOf(filter, gen, c).Contains(x) {
      assert gen[gp].Contains(x) && filter[fp].Contains(x);
    }
  }

  /** Settling drops no point: it only steps over empty intersections. */
  lemma {:induction false} SettleAhead(filter: seq<Range>, gen: seq<Range>, c: Cursor, x: nat)
    requires Streams(filter, gen) && InBounds(filter, gen, c)
    ensures Ahead(filter, gen, c, x) <==> Ahead(filter, gen, Settle(filter, gen, c), x)
    decreases (|gen| - c.genPos) + (|filter| - c.filterPos)
  {
    if !Settled(filter, gen, c) {
      StepAhead(filter, gen, c, x);
      SettleAhead(filter, gen, Step(filter, gen, c), x);
    }
  }

  /** A cursor with one stream at its end has nothing ahead. */
  lemma AtEndNothingAhead(filter: seq<Range>, gen: seq<Range>, c: Cursor, x: nat)
    requires Streams(filter, gen) && InBounds(filter, gen, c)
    requires KeyAt(gen, c.genPos).Empty() || KeyAt(filter, c.filterPos).Empty()
    ensures !Ahead(filter, gen, c, x)
  {
  }

  /** An increment drops exactly the points of the current range. */
  lemma IncrementAhead(filter: seq<Range>, gen: seq<Range>, c: Cursor, x: nat)
    requires Streams(filter, gen) && InBounds(filter, gen, c)
    ensures Ahead(filter, gen, c, x) <==>
      CurrentOf(filter, gen, c).Contains(x) || Ahead(filter, gen, Increment(filter, gen, c), x)
  {
    if KeyAt(gen, c.genPos).NonEmpty() && KeyAt(filter, c.filterPos).NonEmpty() {
      StepAhead(filter, gen, c, x);
      SettleAhead(filter, gen, Step(filter, gen, c), x);
    } else {
      AtEndNothingAhead(filter, gen, c, x);
    }
  }

  /** Successive outputs of the corrected generator move strictly forward. */
  lemma IncrementForward(filter: seq<Range>, gen: seq<Range>, c: Cursor)
    requires Streams(filter, gen) && InBounds(filter, gen, c)
    requires CurrentOf(filter, gen, c).NonEmpty()
    ensures var n := CurrentOf(filter, gen, Increment(filter, gen, c));
      n.NonEmpty() ==> CurrentOf(filter, gen, c).end <= n.begin
  {
    var c' := Increment(filter, gen, c);
    var n := CurrentOf(filter, gen, c');
    if n.NonEmpty() {
      if c.genPos < c'.genPos {
        Ordered(gen, c.genPos, c'.genPos);
      } else {
        Ordered(filter, c.filterPos, c'.filterPos);
      }
    }
  }

  /** The stream from a state is sorted and disjoint and starts no earlier than
      the current range. */
  lemma {:induction false} StreamSorted(filter: seq<Range>, gen: seq<Range>, c: Cursor)
    requires Streams(filter, gen) && InBounds(filter, gen, c)
    ensures var s := Stream(filter, gen, c);
      && SortedDisjoint(s)
      && (forall i :: 0 <= i < |s| ==> CurrentOf(filter, gen, c).begin <= s[i].begin)
    decreases (|gen| - c.genPos) + (|filter| - c.filterPos)
  {
    var cur := CurrentOf(filter, gen, c);
    if cur.NonEmpty() {
      var c' := Increment(filter, gen, c);
      StreamSorted(filter, gen, c');
      IncrementForward(filter, gen, c);
      var s := Stream(filter, gen, c);
      var rest := Stream(filter, gen, c');
      assert s == [cur] + rest;
      if |rest| > 0 {
        assert rest[0] == CurrentOf(filter, gen, c');
        assert forall i :: 0 <= i < |rest| ==> cur.end <= rest[i].begin;
      }
      assert forall i :: 0 < i < |s| ==> s[i] == rest[i - 1];
    }
  }

  /** The `i`-th range of the stream is the intersection of the generated range
      at some position `a` with the filter key at some position `b`. */
  lemma {:induction false} StreamElementPair(filter: seq<Range>, gen: seq<Range>, c: Cursor, i: nat) returns (a: nat, b: nat)
    requires Streams(filter, gen) && InBounds(filter, gen, c)
    requires i < |Stream(filter, gen, c)|
    ensures a < |gen| && b < |filter|
    ensures Stream(filter, gen, c)[i] == Intersect(gen[a], filter[b])
    decreases (|gen| - c.genPos) + (|filter| - c.filterPos)
  {
    var cur := CurrentOf(filter, gen, c);
    var c' := Increment(filter, gen, c);
    StreamUnfold(filter, gen, c);
    if i == 0 {
      a, b := c.genPos, c.filterPos;
      assert Stream(filter, gen, c)[0] == cur;
    } else {
      a, b := StreamElementPair(filter, gen, c', i - 1);
      ConsAt(cur, Stream(filter, gen, c'), i);
    }
  }

  /** Indexing past the head of a sequence with one range put in front. */
  lemma ConsAt(r: Range, rest: seq<Range>, i: nat)
    requires 0 < i <= |rest|
    ensures ([r] + rest)[i] == rest[i - 1]
  {
  }

  /** One step of the stream: the current range, then the stream after an increment. */
  lemma StreamUnfold(filter: seq<Range>, gen: seq<Range>, c: Cursor)
    requires Streams(filter, gen) && InBounds(filter, gen, c)
    ensures CurrentOf(filter, gen, c).Empty() ==> Stream(filter, gen, c) == []
    ensures CurrentOf(filter, gen, c).NonEmpty() ==>
      c.genPos < |gen| && c.filterPos < |filter| &&
      Stream(filter, gen, c) == [CurrentOf(filter, gen, c)] + Stream(filter, gen, Increment(filter, gen, c))
  {
  }

  /** Every range of the stream is one generated range intersected with one key. */
  lemma StreamPairs(filter: seq<Range>, gen: seq<Range>, c: Cursor)
    requires Streams(filter, gen) && InBounds(filter, gen, c)
    ensures var s := Stream(filter, gen, c);
      forall i :: 0 <= i < |s| ==> IsPairIntersection(filter, gen, s[i])
  {
    var s := Stream(filter, gen, c);
    forall i | 0 <= i < |s| ensures IsPairIntersection(filter, gen, s[i]) {
      var a, b := StreamElementPair(filter, gen, c, i);
    }
  }

  /** From a settled state the stream covers exactly the points still ahead. */
  lemma {:induction false} StreamCoversAhead(filter: seq<Range>, gen: seq<Range>, c: Cursor, x: nat)
    requires Streams(filter, gen) && InBounds(filter, gen, c) && Settled(filter, gen, c)
    ensures InSome(Stream(filter, gen, c), x) <==> Ahead(filter, gen, c, x)
    decreases (|gen| - c.genPos) + (|filter| - c.filterPos)
  {
    var cur := CurrentOf(filter, gen, c);
    if cur.Empty() {
      AtEndNothingAhead(filter, gen, c, x);
    } else {
      var c' := Increment(filter, gen, c);
      StreamCoversAhead(filter, gen, c', x);
      IncrementAhead(filter, gen, c, x);
      var s := Stream(filter, gen, c);
      var rest := Stream(filter, gen, c');
      assert s == [cur] + rest;
      if InSome(s, x) && !cur.Contains(x) {
        var i :| 0 <= i < |s| && s[i].Contains(x);
        assert rest[i - 1].Contains(x);
      }
      if InSome(rest, x) {
        var i :| 0 <= i < |rest| && rest[i].Contains(x);
        assert s[i + 1].Contains(x);
      }
      if cur.Contains(x) {
        assert s[0].Contains(x);
      }
    }
  }

  /** Seeking the filter to the first generated range skips no common point. */
  lemma StartAhead(filter: seq<Range>, gen: seq<Range>, x: nat)
    requires Streams(filter, gen) && |gen| > 0
    ensures Ahead(filter, gen, Cursor(0, LowerBound(filter, gen[0].begin)), x) <==> InBoth(filter, gen, x)
  {
    if InBoth(filter, gen, x) {
      var k :| 0 <= k < |gen| && gen[k].Contains(x);
      var j :| 0 <= j < |filter| && filter[j].Contains(x);
      OrderedBegins(gen, 0, k);
      assert LowerBound(filter, gen[0].begin) <= j;
    }
  }

  /** The corrected generator partitions the intersection of the two streams: its
      outputs are non-empty, strictly increasing and disjoint, each is one generated
      range intersected with one filter key, and a point lies in some output exactly
      when it lies in both a generated range and a filter key. */
  lemma CorrectedGeneratorPartitions(filter: seq<Range>, gen: seq<Range>)
    requires Streams(filter, gen)
    ensures var s := Stream(filter, gen, Start(filter, gen));
      && SortedDisjoint(s)
      && (forall i :: 0 <= i < |s| ==> IsPairIntersection(filter, gen, s[i]))
      && (forall x :: InSome(s, x) <==> InBoth(filter, gen, x))
  {
    var c := Start(filter, gen);
    StreamSorted(filter, gen, c);
    StreamPairs(filter, gen, c);
    forall x ensures InSome(Stream(filter, gen, c), x) <==> InBoth(filter, gen, x) {
      StreamCoversAhead(filter, gen, c, x);
      if |gen| == 0 {
        AtEndNothingAhead(filter, gen, c, x);
      } else {
        StartAhead(filter, gen, x);
        SettleAhead(filter, gen, Cursor(0, LowerBound(filter, gen[0].begin)), x);
      }
    }
  }

  /** An unsettled state settles where its step does. */
  lemma SettleStep(filter: seq<Range>, gen: seq<Range>, c: Cursor)
    requires Streams(filter, gen) && InBounds(filter, gen, c)
    requires KeyAt(gen, c.genPos).NonEmpty() && KeyAt(filter, c.filterPos).NonEmpty() && CurrentOf(filter, gen, c).Empty()
    ensures Settle(filter, gen, c) == Settle(filter, gen, Step(filter, gen, c))
    ensures KeyAt(gen, c.genPos).end > KeyAt(filter, c.filterPos).end ==>
      Step(filter, gen, c) == AdvanceFilterCursor(filter, gen, c)
    ensures KeyAt(gen, c.genPos).end <= KeyAt(filter, c.filterPos).end ==>
      Step(filter, gen, c) == AdvanceGenCursor(filter, gen, c)
  {
  }

  /** The generator with both corrections. */
  class CorrectedFilteredGenerator {
    const filter: seq<Range>
    const gen: seq<Range>
    var genPos: nat
    var filterPos: nat
    var current: Range

    ghost predicate Valid()
      reads this
    {
      && Streams(filter, gen) && InBounds(filter, gen, Cursor(genPos, filterPos))
      && Settled(filter, gen, Cursor(genPos, filterPos))
      && current == CurrentOf(filter, gen, Cursor(genPos, filterPos))
    }

    /** The ranges still to come, the current one included. */
    ghost function Remaining(): seq<Range>
      reads this
      requires Valid()
    {
      Stream(filter, gen, Cursor(genPos, filterPos))
    }

    constructor (filterKeys: seq<Range>, genStream: seq<Range>)
      requires Streams(filterKeys, genStream)
      ensures Valid() && filter == filterKeys && gen == genStream
      ensures Cursor(genPos, filterPos) == Start(filterKeys, genStream)
    {
      filter := filterKeys;
      gen := genStream;
      genPos := 0;
      new;
      var genRange := KeyAt(gen, genPos);
      if genRange.Empty() {
        current := EmptyRange;
        filterPos := |filter|;
      } else {
        filterPos := LowerBound(filter, genRange.begin);
        current := Intersect(genRange, KeyAt(filter, filterPos));
        if current.Empty() {
          // keep advancing past a first generated range that misses the filter
          Advance();
        }
      }
    }

    /** `AdvanceFilter()`: step the filter cursor, then fast-forward the wrapped
        generator to the new key. */
    method AdvanceFilter() returns (filterRange: Range)
      requires Streams(filter, gen) && InBounds(filter, gen, Cursor(genPos, filterPos)) && filterPos < |filter|
      modifies this`filterPos, this`genPos
      ensures InBounds(filter, gen, Cursor(genPos, filterPos))
      ensures Cursor(genPos, filterPos) == AdvanceFilterCursor(filter, gen, old(Cursor(genPos, filterPos)))
      ensures filterRange == KeyAt(filter, filterPos)
    {
      filterPos := filterPos + 1;
      filterRange := KeyAt(filter, filterPos);
      if filterRange.Valid() {
        genPos := FastForwardGen(gen, genPos, filterRange);
      }
    }

    /** `AdvanceGen()`: step the wrapped generator, then fast-forward the filter
        cursor to the new range. */
    method AdvanceGen() returns (genRange: Range)
      requires Streams(filter, gen) && InBounds(filter, gen, Cursor(genPos, filterPos)) && genPos < |gen|
      modifies this`filterPos, this`genPos
      ensures InBounds(filter, gen, Cursor(genPos, filterPos))
      ensures Cursor(genPos, filterPos) == AdvanceGenCursor(filter, gen, old(Cursor(genPos, filterPos)))
      ensures genRange == KeyAt(gen, genPos)
    {
      genPos := genPos + 1;
      genRange := KeyAt(gen, genPos);
      if genRange.Valid() {
        filterPos := FastForwardFilter(filter, filterPos, genRange);
      }
    }

    /** The corrected loop: step until settled, re-reading both ranges each time. */
    method Advance()
      requires Streams(filter, gen) && InBounds(filter, gen, Cursor(genPos, filterPos))
      modifies this
      ensures Valid()
      ensures Cursor(genPos, filterPos) == Settle(filter, gen, old(Cursor(genPos, filterPos)))
    {
      ghost var target := Settle(filter, gen, Cursor(genPos, filterPos));
      var genRange := KeyAt(gen, genPos);
      var filterRange := KeyAt(filter, filterPos);
      current := Intersect(genRange, filterRange);
      while genRange.NonEmpty() && filterRange.NonEmpty() && current.Empty()
        invariant InBounds(filter, gen, Cursor(genPos, filterPos))
        invariant genRange == KeyAt(gen, genPos) && filterRange == KeyAt(filter, filterPos)
        invariant current == Intersect(genRange, filterRange)
        invariant Settle(filter, gen, Cursor(genPos, filterPos)) == target
        decreases (|gen| - genPos) + (|filter| - filterPos)
      {
        SettleStep(filter, gen, Cursor(genPos, filterPos));
        if genRange.end > filterRange.end {
          filterRange := AdvanceFilter();
          genRange := KeyAt(gen, genPos);
        } else {
          genRange := AdvanceGen();
          filterRange := KeyAt(filter, filterPos);
        }
        current := Intersect(genRange, filterRange);
      }
    }

    /** `operator++`, corrected: the current range is replaced by the next one of
        the stream. */
    method Next()
      requires Valid()
      modifies this
      ensures Valid()
      ensures Cursor(genPos, filterPos) == Increment(filter, gen, old(Cursor(genPos, filterPos)))
      ensures old(current).NonEmpty() ==> old(Remaining()) == [old(current)] + Remaining()
      ensures old(current).NonEmpty() && current.NonEmpty() ==> old(current).end <= current.begin
    {
      ghost var c := Cursor(genPos, filterPos);
      if KeyAt(gen, genPos).NonEmpty() && KeyAt(filter, filterPos).NonEmpty() {
        if KeyAt(gen, genPos).end > KeyAt(filter, filterPos).end {
          var _ := AdvanceFilter();
        } else {
          var _ := AdvanceGen();
        }
        assert Cursor(genPos, filterPos) == Step(filter, gen, c);
        Advance();
      } else {
        current := EmptyRange;
      }
      if old(current).NonEmpty() {
        IncrementForward(filter, gen, c);
      }
    }
  }

  // ---------------------------------------------------------------------------
  // Counterexamples: what the written generator does on small inputs
  // ---------------------------------------------------------------------------

  /** The written constructor reports the end at once when the first generated
      range misses the filter, although the second one meets it. */
  lemma AsWrittenStartMissesLaterIntersection()
    ensures var filter, gen := [Range(10, 30)], [Range(0, 5), Range(20, 25)];
      && Streams(filter, gen)
      && AsWrittenStart(filter, gen).current.Empty()
      && Intersect(gen[1], filter[0]) == Range(20, 25)
      && CurrentOf(filter, gen, Start(filter, gen)) == Range(20, 25)
  {
    var filter, gen := [Range(10, 30)], [Range(0, 5), Range(20, 25)];
    assert LowerBound(filter, 0) == 0;
    var c0 := Cursor(0, 0);
    assert !Settled(filter, gen, c0);
    assert Step(filter, gen, c0) == Cursor(1, 0) by {
      assert FastForwardFilterPos(filter, 0, 20, 0) == 0;
    }
    assert Settled(filter, gen, Cursor(1, 0));
  }

  /** The written `operator++` fast-forwards the filter cursor inside `AdvanceGen`
      but keeps comparing against the stale local filter range; its next
      `AdvanceFilter` then steps over the key that meets the generated range, and
      the generator ends without yielding [22, 24). */
  lemma AsWrittenIncrementSkipsKey()
    ensures var filter, gen := [Range(0, 10), Range(20, 30)], [Range(2, 4), Range(22, 24)];
      && Streams(filter, gen)
      && AsWrittenStart(filter, gen) == GenState(Cursor(0, 0), Range(2, 4))
      && AsWrittenIncrement(filter, gen, Cursor(0, 0)) == Some(GenState(Cursor(1, 2), EmptyRange))
      && Intersect(gen[1], filter[1]) == Range(22, 24)
      && Increment(filter, gen, Cursor(0, 0)) == Cursor(1, 1)
      && CurrentOf(filter, gen, Cursor(1, 1)) == Range(22, 24)
  {
    var filter, gen := [Range(0, 10), Range(20, 30)], [Range(2, 4), Range(22, 24)];
    assert Streams(filter, gen);
    assert LowerBound(filter, 2) == 0;
    assert FastForwardFilterPos(filter, 1, 22, 1) == 1;
    assert FastForwardFilterPos(filter, 0, 22, 0) == 1;
    assert FastForwardGenPos(gen, 1, 0) == 1;
    var r2 := AsWrittenLoop(filter, gen, Cursor(1, 2), Range(22, 24), EmptyRange, EmptyRange);
    assert r2 == Some(GenState(Cursor(1, 2), EmptyRange));
    assert AsWrittenLoop(filter, gen, Cursor(1, 1), Range(22, 24), Range(0, 10), EmptyRange) == r2;
    assert Step(filter, gen, Cursor(0, 0)) == Cursor(1, 1);
  }

  /** With a single filter key the written loop increments the filter cursor while
      it already stands at the end of the map. */
  lemma AsWrittenIncrementPassesEnd()
    ensures var filter, gen := [Range(0, 10)], [Range(2, 4), Range(22, 24)];
      && Streams(filter, gen)
      && AsWrittenStart(filter, gen) == GenState(Cursor(0, 0), Range(2, 4))
      && AsWrittenIncrement(filter, gen, Cursor(0, 0)).None?
  {
    var filter, gen := [Range(0, 10)], [Range(2, 4), Range(22, 24)];
    assert LowerBound(filter, 2) == 0;
    assert FastForwardFilterPos(filter, 1, 22, 1) == 1;
    assert FastForwardFilterPos(filter, 0, 22, 0) == 1;
    assert AsWrittenLoop(filter, gen, Cursor(1, 1), Range(22, 24), Range(0, 10), EmptyRange).None?;
  }
}
