/** `BatchAccessLog`: for a queue batch, the map from tag ranges to the access
    logs of the command buffers (and present/acquire operations) those tags
    came from, used to say which recorded command a hazard's earlier access
    belongs to. The map holds sorted, non-overlapping, non-empty ranges; the
    recorded usage entries are represented by their identity. */
module AccessLog {
  import opened Ranges
  import opened SyncIds
  import opened Containers

  /** A `ResourceUsageRecord`, by identity: how it is formatted is not part of this model. */
  type RecordId = nat

  /** `BatchRecord`: the batch a log belongs to; `bias` is its first tag. */
  datatype BatchRecord = BatchRecord(hasQueue: bool, submitIndex: nat, batchIndex: nat, bias: Tag)

  /** `CBSubmitLog`: the batch and the (possibly null) access log of one recording. */
  datatype CBSubmitLog = CBSubmitLog(batch: BatchRecord, log: Option<seq<RecordId>>)

  /** `AccessRecord`: the batch and the usage entry of one tag; null when not found. */
  datatype AccessRecord = AccessRecord(batch: Option<BatchRecord>, record: Option<RecordId>) {
    predicate IsValid() { batch.Some? && record.Some? }
  }

  const NotFound := AccessRecord(None, None)

  /** One key/value pair of `log_map_`. */
  datatype Entry = Entry(key: Range, value: CBSubmitLog)

  /** `log_map_.lower_bound(x)`: the first entry whose range ends after `x`. */
  function MapLowerBound(es: seq<Entry>, x: Tag): nat {
    if |es| == 0 then 0
    else if x < es[0].key.end then 0
    else 1 + MapLowerBound(es[1..], x)
  }

  lemma {:induction false} MapLowerBoundBounds(es: seq<Entry>, x: Tag)
    ensures MapLowerBound(es, x) <= |es|
    ensures forall j :: 0 <= j < MapLowerBound(es, x) ==> es[j].key.end <= x
    ensures MapLowerBound(es, x) < |es| ==> x < es[MapLowerBound(es, x)].key.end
  {
    if |es| > 0 && es[0].key.end <= x {
      MapLowerBoundBounds(es[1..], x);
      assert forall j :: 0 < j < |es| ==> es[j] == es[1..][j - 1];
    }
  }

  /** The range map's invariant: non-empty keys, each earlier one ending no later
      than each later one begins. */
  ghost predicate Sorted(es: seq<Entry>) {
    && (forall i :: 0 <= i < |es| ==> es[i].key.NonEmpty())
    && (forall i, j :: 0 <= i < j < |es| ==> es[i].key.end <= es[j].key.begin)
  }

  /** `log_map_.find(tag)`: the entry at `lower_bound(tag)` when its range includes the tag. */
  function Find(es: seq<Entry>, x: Tag): (r: Option<Entry>)
    ensures r.Some? ==> r.value in es && r.value.key.Contains(x)
  {
    var i := MapLowerBound(es, x);
    MapLowerBoundBounds(es, x);
    if i < |es| && es[i].key.begin <= x then Some(es[i]) else None
  }

  /** In a sorted map `find` returns exactly the entry whose range includes the tag. */
  lemma FindExact(es: seq<Entry>, x: Tag, e: Entry)
    requires Sorted(es)
    ensures Find(es, x) == Some(e) <==> e in es && e.key.Contains(x)
  {
    if e in es && e.key.Contains(x) {
      var j :| 0 <= j < |es| && es[j] == e;
      var i := MapLowerBound(es, x);
      MapLowerBoundBounds(es, x);
      Before(es, i, j);
    }
  }

  /** In a sorted map an earlier entry ends no later than a later one begins. */
  lemma Before(es: seq<Entry>, i: nat, j: nat)
    requires Sorted(es) && j < |es|
    ensures i < j ==> es[i].key.end <= es[j].key.begin
  {
  }

  /** `range_map::insert`: the pair is added unless its key is empty or overlaps the
      key found at `lower_bound(key)`; an existing entry is never replaced. */
  predicate CanInsert(es: seq<Entry>, key: Range) {
    MapLowerBoundBounds(es, key.begin);
    var p := MapLowerBound(es, key.begin);
    key.NonEmpty() && (p == |es| || !es[p].key.Intersects(key))
  }

  function Inserted(es: seq<Entry>, e: Entry): (r: seq<Entry>)
    ensures CanInsert(es, e.key) ==> |r| == |es| + 1
    ensures !CanInsert(es, e.key) ==> r == es
    ensures forall y :: y in r <==> y in es || (CanInsert(es, e.key) && y == e)
  {
    if CanInsert(es, e.key) then
      MapLowerBoundBounds(es, e.key.begin);
      var p := MapLowerBound(es, e.key.begin);
      assert es == es[..p] + es[p..];
      es[..p] + [e] + es[p..]
    else es
  }

  /** In a sorted map the lower-bound check is the same as checking every key. */
  lemma CanInsertIff(es: seq<Entry>, key: Range)
    requires Sorted(es)
    ensures CanInsert(es, key) <==> key.NonEmpty() && forall j :: 0 <= j < |es| ==> !es[j].key.Intersects(key)
  {
    var p := MapLowerBound(es, key.begin);
    MapLowerBoundBounds(es, key.begin);
    if CanInsert(es, key) {
      forall j | 0 <= j < |es|
        ensures !es[j].key.Intersects(key)
      {
        if p < j {
          assert es[p].key.end <= es[j].key.begin;
        }
      }
    }
  }

  /** Two sorted maps, the first wholly before the second, concatenate to a sorted map. */
  lemma SortedConcat(a: seq<Entry>, b: seq<Entry>)
    requires Sorted(a) && Sorted(b)
    requires forall i, j :: 0 <= i < |a| && 0 <= j < |b| ==> a[i].key.end <= b[j].key.begin
    ensures Sorted(a + b)
  {
    var r := a + b;
    forall i, j | 0 <= i < j < |r|
      ensures r[i].key.end <= r[j].key.begin
    {
      if j < |a| {
        assert r[i] == a[i] && r[j] == a[j];
      } else if i < |a| {
        assert r[i] == a[i] && r[j] == b[j - |a|];
      } else {
        assert r[i] == b[i - |a|] && r[j] == b[j - |a|];
      }
    }
  }

  /** A slice of a sorted map is sorted. */
  lemma SortedSlice(es: seq<Entry>, lo: nat, hi: nat)
    requires Sorted(es) && lo <= hi <= |es|
    ensures Sorted(es[lo..hi])
  {
    var s := es[lo..hi];
    assert forall i :: 0 <= i < |s| ==> s[i] == es[lo + i];
  }

  /** An entry placed between the keys ending before it and those beginning after it
      keeps the map sorted. */
  lemma SortedInsertAt(es: seq<Entry>, p: nat, e: Entry)
    requires Sorted(es) && p <= |es| && e.key.NonEmpty()
    requires forall i :: 0 <= i < p ==> es[i].key.end <= e.key.begin
    requires p < |es| ==> e.key.end <= es[p].key.begin
    ensures Sorted(es[..p] + [e] + es[p..])
  {
    var lo, hi := es[..p], es[p..];
    SortedSlice(es, 0, p);
    SortedSlice(es, p, |es|);
    SortedConcat(lo, [e]);
    forall i, j | 0 <= i < |lo + [e]| && 0 <= j < |hi|
      ensures (lo + [e])[i].key.end <= hi[j].key.begin
    {
      assert hi[j] == es[p + j];
      if i < p {
        assert (lo + [e])[i] == es[i];
      } else {
        Before(es, p, p + j);
      }
    }
    SortedConcat(lo + [e], hi);
  }

  /** Insertion keeps the map sorted. */
  lemma InsertedSorted(es: seq<Entry>, e: Entry)
    requires Sorted(es)
    ensures Sorted(Inserted(es, e))
  {
    if CanInsert(es, e.key) {
      var p := MapLowerBound(es, e.key.begin);
      MapLowerBoundBounds(es, e.key.begin);
      SortedInsertAt(es, p, e);
    }
  }

  /** After an insertion a tag is found in the new entry when it was added and
      includes the tag, and otherwise exactly as before. */
  lemma InsertedFind(es: seq<Entry>, e: Entry, x: Tag)
    requires Sorted(es)
    ensures Find(Inserted(es, e), x) == if CanInsert(es, e.key) && e.key.Contains(x) then Some(e) else Find(es, x)
  {
    var r := Inserted(es, e);
    InsertedSorted(es, e);
    CanInsertIff(es, e.key);
    if CanInsert(es, e.key) && e.key.Contains(x) {
      FindExact(r, x, e);
    } else {
      match Find(es, x)
      case Some(f) =>
        FindExact(es, x, f);
        FindExact(r, x, f);
      case None =>
        match Find(r, x)
        case Some(g) =>
          FindExact(r, x, g);
          FindExact(es, x, g);
        case None =>
    }
  }

  /** `CBSubmitLog::operator[]`: the usage entry at `tag - bias`. The source asserts that
      the tag is at or after the bias, the log is present and the index is in range;
      a lookup that breaks one of those yields the null record here. */
  function SubmitLogRecord(l: CBSubmitLog, tag: Tag): (r: AccessRecord)
    ensures r.IsValid() <==> l.batch.bias <= tag && l.log.Some? && tag - l.batch.bias < |l.log.value|
    ensures r.IsValid() ==> r.batch == Some(l.batch) && r.record == Some(l.log.value[tag - l.batch.bias])
  {
    if l.batch.bias <= tag && l.log.Some? && tag - l.batch.bias < |l.log.value| then
      AccessRecord(Some(l.batch), Some(l.log.value[tag - l.batch.bias]))
    else NotFound
  }

  /** `BatchAccessLog::operator[]`: the record of the entry whose range includes the tag. */
  function Lookup(es: seq<Entry>, tag: Tag): (r: AccessRecord)
    ensures r.IsValid() ==> Find(es, tag).Some? && r == SubmitLogRecord(Find(es, tag).value.value, tag)
  {
    match Find(es, tag)
    case Some(e) => SubmitLogRecord(e.value, tag)
    case None => NotFound
  }

  /** The entry `Import(batch, cb_access)` adds: the tags [bias, bias + tag limit)
      map to the recording's log, whose length is its tag limit. */
  function SubmitEntry(batch: BatchRecord, cbLog: seq<RecordId>): Entry {
    Entry(Range(batch.bias, batch.bias + |cbLog|), CBSubmitLog(batch, Some(cbLog)))
  }

  /** Importing a recording and then looking up one of its tags yields that
      tag's usage entry, unless the tags were already mapped. */
  lemma ImportThenLookup(es: seq<Entry>, batch: BatchRecord, cbLog: seq<RecordId>, tag: Tag)
    requires Sorted(es)
    requires CanInsert(es, SubmitEntry(batch, cbLog).key)
    requires batch.bias <= tag < batch.bias + |cbLog|
    ensures Lookup(Inserted(es, SubmitEntry(batch, cbLog)), tag) == AccessRecord(Some(batch), Some(cbLog[tag - batch.bias]))
  {
    InsertedFind(es, SubmitEntry(batch, cbLog), tag);
  }

  /** `Import(const BatchAccessLog &other)`: every entry of the other map, inserted in order. */
  function ImportAll(es: seq<Entry>, from: seq<Entry>): seq<Entry>
    decreases |from|
  {
    if |from| == 0 then es else ImportAll(Inserted(es, from[0]), from[1..])
  }

  /** Importing keeps the map sorted and never changes what an existing tag finds. */
  lemma {:induction false} ImportAllKeeps(es: seq<Entry>, from: seq<Entry>, x: Tag)
    requires Sorted(es)
    ensures Sorted(ImportAll(es, from))
    ensures Find(es, x).Some? ==> Find(ImportAll(es, from), x) == Find(es, x)
    decreases |from|
  {
    if |from| > 0 {
      InsertedSorted(es, from[0]);
      InsertedFind(es, from[0], x);
      if Find(es, x).Some? {
        CanInsertIff(es, from[0].key);
        FindExact(es, x, Find(es, x).value);
        assert Find(es, x).value.key.Intersects(from[0].key) ==> !CanInsert(es, from[0].key);
      }
      ImportAllKeeps(Inserted(es, from[0]), from[1..], x);
    }
  }

  /** A range is referenced when one of the used tags lies in it. */
  predicate Referenced(key: Range, used: seq<Tag>) {
    exists j :: 0 <= j < |used| && key.Contains(used[j])
  }

  /** The entries `Trim(used_tags)` keeps: the referenced ones, in order. */
  function Trimmed(es: seq<Entry>, used: seq<Tag>): (r: seq<Entry>)
    ensures |r| <= |es|
  {
    if |es| == 0 then []
    else (if Referenced(es[0].key, used) then [es[0]] else []) + Trimmed(es[1..], used)
  }

  lemma {:induction false} TrimmedAppend(a: seq<Entry>, b: seq<Entry>, used: seq<Tag>)
    ensures Trimmed(a + b, used) == Trimmed(a, used) + Trimmed(b, used)
    decreases |a|
  {
    if |a| == 0 {
      assert a + b == b;
    } else {
      var head := if Referenced(a[0].key, used) then [a[0]] else [];
      assert (a + b)[0] == a[0];
      assert (a + b)[1..] == a[1..] + b;
      assert Trimmed(a + b, used) == head + Trimmed(a[1..] + b, used);
      TrimmedAppend(a[1..], b, used);
    }
  }

  /** Trimming keeps exactly the referenced entries. */
  lemma {:induction false} TrimmedMembers(es: seq<Entry>, used: seq<Tag>, e: Entry)
    ensures e in Trimmed(es, used) <==> e in es && Referenced(e.key, used)
    decreases |es|
  {
    if |es| > 0 {
      TrimmedMembers(es[1..], used, e);
      assert es == [es[0]] + es[1..];
    }
  }

  /** Trimming keeps the map sorted. */
  lemma {:induction false} TrimmedSorted(es: seq<Entry>, used: seq<Tag>)
    requires Sorted(es)
    ensures Sorted(Trimmed(es, used))
    decreases |es|
  {
    if |es| > 0 {
      var rest := es[1..];
      TailSorted(es);
      TrimmedSorted(rest, used);
      if Referenced(es[0].key, used) {
        var t := Trimmed(rest, used);
        forall i | 0 <= i < |t|
          ensures es[0].key.end <= t[i].key.begin
        {
          TrimmedMembers(rest, used, t[i]);
          var j :| 0 <= j < |rest| && rest[j] == t[i];
          assert es[j + 1] == t[i];
        }
        ConsSorted(es[0], t);
      }
    }
  }

  /** The tail of sorted entries is sorted. */
  lemma TailSorted(es: seq<Entry>)
    requires Sorted(es) && |es| > 0
    ensures Sorted(es[1..])
  {
    assert forall i :: 0 <= i < |es[1..]| ==> es[1..][i] == es[i + 1];
  }

  /** An entry ending before every entry of sorted entries, put in front of them. */
  lemma ConsSorted(e: Entry, es: seq<Entry>)
    requires e.key.NonEmpty() && Sorted(es)
    requires forall i :: 0 <= i < |es| ==> e.key.end <= es[i].key.begin
    ensures Sorted([e] + es)
  {
    var r := [e] + es;
    assert forall i :: 0 < i < |r| ==> r[i] == es[i - 1];
  }

  /** After trimming, a used tag finds the same entry as before. */
  lemma TrimmedKeepsUsedLookups(es: seq<Entry>, used: seq<Tag>, j: nat)
    requires Sorted(es) && j < |used|
    ensures Find(Trimmed(es, used), used[j]) == Find(es, used[j])
  {
    var t := Trimmed(es, used);
    var x := used[j];
    TrimmedSorted(es, used);
    match Find(es, x)
    case Some(e) =>
      FindExact(es, x, e);
      TrimmedMembers(es, used, e);
      FindExact(t, x, e);
    case None =>
      match Find(t, x)
      case Some(g) =>
        FindExact(t, x, g);
        TrimmedMembers(es, used, g);
        FindExact(es, x, g);
      case None =>
  }

  /** A used-tag set: strictly increasing. */
  predicate TagsSorted(used: seq<Tag>) {
    forall i, j :: 0 <= i < j < |used| ==> used[i] < used[j]
  }

  /** `used_tags.lower_bound(x)`: the first position whose tag is at least `x`. */
  function TagLowerBound(used: seq<Tag>, x: Tag): nat {
    if |used| == 0 then 0
    else if x <= used[0] then 0
    else 1 + TagLowerBound(used[1..], x)
  }

  lemma {:induction false} TagLowerBoundBounds(used: seq<Tag>, x: Tag)
    ensures TagLowerBound(used, x) <= |used|
    ensures forall j :: 0 <= j < TagLowerBound(used, x) ==> used[j] < x
    ensures TagLowerBound(used, x) < |used| ==> x <= used[TagLowerBound(used, x)]
  {
    if |used| > 0 && used[0] < x {
      TagLowerBoundBounds(used[1..], x);
      assert forall j :: 0 < j < |used| ==> used[j] == used[1..][j - 1];
    }
  }

  /** Entries lying between the used tags are all dropped. */
  lemma TrimmedUnreferenced(es: seq<Entry>, used: seq<Tag>)
    requires forall m :: 0 <= m < |es| ==> !Referenced(es[m].key, used)
    ensures Trimmed(es, used) == []
  {
    if |es| > 0 {
      assert forall m :: 0 <= m < |es[1..]| ==> es[1..][m] == es[m + 1];
      TrimmedUnreferenced(es[1..], used);
    }
  }

  class BatchAccessLog {
    /** `log_map_` */
    var entries: seq<Entry>

    ghost predicate Valid()
      reads this
    {
      Sorted(entries)
    }

    constructor()
      ensures Valid() && entries == []
    {
      entries := [];
    }

    /** `Import(batch, cb_access)`: maps the recording's tags, returning the tag limit. */
    method ImportSubmit(batch: BatchRecord, cbLog: seq<RecordId>) returns (tagLimit: Tag)
      requires Valid()
      modifies this
      ensures Valid()
      ensures tagLimit == batch.bias + |cbLog|
      ensures entries == Inserted(old(entries), SubmitEntry(batch, cbLog))
    {
      var bias := batch.bias;
      tagLimit := bias + |cbLog|;
      InsertedSorted(entries, SubmitEntry(batch, cbLog));
      entries := Inserted(entries, Entry(Range(bias, tagLimit), CBSubmitLog(batch, Some(cbLog))));
    }

    /** `Insert(batch, range, log)`. */
    method Insert(batch: BatchRecord, range: Range, log: Option<seq<RecordId>>)
      requires Valid()
      modifies this
      ensures Valid()
      ensures entries == Inserted(old(entries), Entry(range, CBSubmitLog(batch, log)))
    {
      InsertedSorted(entries, Entry(range, CBSubmitLog(batch, log)));
      entries := Inserted(entries, Entry(range, CBSubmitLog(batch, log)));
    }

    /** `Import(const BatchAccessLog &other)`. */
    method ImportLog(other: BatchAccessLog)
      requires Valid()
      modifies this
      ensures Valid()
      ensures entries == ImportAll(old(entries), old(other.entries))
    {
      var from := other.entries;
      ghost var target := ImportAll(entries, from);
      var i := 0;
      while i < |from|
        invariant i <= |from| && Sorted(entries)
        invariant ImportAll(entries, from[i..]) == target
      {
        assert from[i..][1..] == from[i + 1..];
        InsertedSorted(entries, from[i]);
        entries := Inserted(entries, from[i]);
        i := i + 1;
      }
    }

    /** `Trim(used_tags)`: the parallel walk over the map and the used tags. */
    method Trim(used: seq<Tag>)
      requires Valid() && TagsSorted(used)
      modifies this
      ensures Valid()
      ensures entries == Trimmed(old(entries), used)
    {
      ghost var orig := entries;
      ghost var k: nat := 0;
      var es := entries;
      var currentTag: nat := 0;
      var current: nat := 0;
      assert orig[..0] == [] && es[..0] == [];
      while current < |es|
        invariant TrimInv(orig, used, es, current, k, currentTag)
        decreases |orig| - k, |used| - currentTag
      {
        if currentTag == |used| {
          TrimStepRest(orig, used, es, current, k, currentTag);
          es := es[..current];
          k := |orig|;
        } else {
          var range := es[current].key;
          var tag := used[currentTag];
          if tag < range.begin {
            TrimStepSeek(orig, used, es, current, k, currentTag);
            currentTag := TagLowerBound(used, range.begin);
          } else if tag >= range.end {
            var next := MapLowerBound(es, tag);
            TrimStepErase(orig, used, es, current, k, currentTag, next);
            k := k + (next - current);
            es := es[..current] + es[next..];
          } else {
            TrimStepKeep(orig, used, es, current, k, currentTag);
            currentTag := TagLowerBound(used, range.end);
            current := current + 1;
            k := k + 1;
          }
        }
      }
      TrimDone(orig, used, es, current, k, currentTag);
      entries := es;
    }
  }

  /** The state of `Trim`'s walk: the first `current` entries are the referenced ones
      among the first `k` original entries, the rest are the original entries from
      `k` on, the used tags before `currentTag` lie before the next original entry,
      and so do the entries kept. */
  ghost predicate TrimInv(orig: seq<Entry>, used: seq<Tag>, entries: seq<Entry>, current: nat, k: nat, currentTag: nat) {
    && Sorted(orig) && TagsSorted(used)
    && current <= |entries| && k <= |orig| && currentTag <= |used|
    && entries[..current] == Trimmed(orig[..k], used)
    && entries[current..] == orig[k..]
    && (k < |orig| ==> forall j :: 0 <= j < currentTag ==> used[j] < orig[k].key.begin)
    && (k < |orig| ==> forall j :: 0 <= j < current ==> entries[j].key.end <= orig[k].key.begin)
  }

  lemma TrimStepRest(orig: seq<Entry>, used: seq<Tag>, entries: seq<Entry>, current: nat, k: nat, currentTag: nat)
    requires TrimInv(orig, used, entries, current, k, currentTag)
    requires current < |entries| && currentTag == |used|
    ensures k < |orig|
    ensures TrimInv(orig, used, entries[..current], current, |orig|, currentTag)
  {
    assert |entries[current..]| == |orig[k..]|;
    TrimRest(orig, used, k);
    assert orig[..|orig|] == orig;
    assert entries[..current][..current] == entries[..current];
  }

  lemma TrimStepSeek(orig: seq<Entry>, used: seq<Tag>, entries: seq<Entry>, current: nat, k: nat, currentTag: nat)
    requires TrimInv(orig, used, entries, current, k, currentTag)
    requires current < |entries| && currentTag < |used| && used[currentTag] < entries[current].key.begin
    ensures currentTag < TagLowerBound(used, entries[current].key.begin)
    ensures TrimInv(orig, used, entries, current, k, TagLowerBound(used, entries[current].key.begin))
  {
    TagLowerBoundBounds(used, entries[current].key.begin);
    assert entries[current] == entries[current..][0] == orig[k];
    TrimInvRetag(orig, used, entries, current, k, currentTag, TagLowerBound(used, entries[current].key.begin));
  }

  /** The walk's state with another position in the used tags. */
  lemma TrimInvRetag(orig: seq<Entry>, used: seq<Tag>, entries: seq<Entry>, current: nat, k: nat, currentTag: nat, t: nat)
    requires TrimInv(orig, used, entries, current, k, currentTag)
    requires t <= |used|
    requires k < |orig| ==> forall j :: 0 <= j < t ==> used[j] < orig[k].key.begin
    ensures TrimInv(orig, used, entries, current, k, t)
  {
  }

  /** In `Trim`'s third case the entries from the current one up to `lower_bound(tag)`
      all end at or before the tag, and the entry there reaches past it. */
  lemma EraseBounds(orig: seq<Entry>, entries: seq<Entry>, current: nat, k: nat, tag: Tag, next: nat)
    requires current < |entries| && k < |orig| && entries[current..] == orig[k..]
    requires orig[k].key.NonEmpty() && orig[k].key.end <= tag
    requires forall j :: 0 <= j < current ==> entries[j].key.end <= orig[k].key.begin
    requires next == MapLowerBound(entries, tag)
    ensures current < next <= |entries| && k + (next - current) <= |orig|
    ensures forall m :: k <= m < k + (next - current) ==> orig[m].key.end <= tag
    ensures k + (next - current) < |orig| ==> tag < orig[k + (next - current)].key.end
  {
    MapLowerBoundBounds(entries, tag);
    SuffixAt(orig, entries, current, k, k);
    assert forall j :: 0 <= j <= current ==> entries[j].key.end <= tag;
    var k' := k + (next - current);
    forall m | k <= m < k'
      ensures orig[m].key.end <= tag
    {
      SuffixAt(orig, entries, current, k, m);
    }
    if k' < |orig| {
      SuffixAt(orig, entries, current, k, k');
    }
  }

  /** Positions of two sequences that agree from `current` and `k` on. */
  lemma SuffixAt(orig: seq<Entry>, entries: seq<Entry>, current: nat, k: nat, m: nat)
    requires current <= |entries| && k <= |orig| && entries[current..] == orig[k..]
    requires k <= m < |orig|
    ensures |entries| - current == |orig| - k
    ensures orig[m] == entries[current + (m - k)]
  {
    assert orig[m] == orig[k..][m - k];
  }

  /** `Trim`'s third case: the entries from the current one up to `lower_bound(tag)`
      are erased, and the walk's state is kept. */
  lemma TrimStepErase(orig: seq<Entry>, used: seq<Tag>, entries: seq<Entry>, current: nat, k: nat, currentTag: nat, next: nat)
    requires TrimInv(orig, used, entries, current, k, currentTag)
    requires current < |entries| && currentTag < |used| && entries[current].key.end <= used[currentTag]
    requires next == MapLowerBound(entries, used[currentTag])
    ensures current < next <= |entries|
    ensures TrimInv(orig, used, entries[..current] + entries[next..], current, k + (next - current), currentTag)
  {
    EraseParts(orig, used, entries, current, k, currentTag, next);
  }

  /** The parts of the walk's state after an erase, from the parts before it. */
  lemma EraseParts(orig: seq<Entry>, used: seq<Tag>, entries: seq<Entry>, current: nat, k: nat, currentTag: nat, next: nat)
    requires Sorted(orig) && TagsSorted(used)
    requires current < |entries| && k <= |orig| && currentTag < |used|
    requires entries[current..] == orig[k..]
    requires k < |orig| ==> forall j :: 0 <= j < currentTag ==> used[j] < orig[k].key.begin
    requires k < |orig| ==> forall j :: 0 <= j < current ==> entries[j].key.end <= orig[k].key.begin
    requires entries[current].key.end <= used[currentTag]
    requires next == MapLowerBound(entries, used[currentTag])
    ensures current < next <= |entries| && k + (next - current) <= |orig|
    ensures Trimmed(orig[..k + (next - current)], used) == Trimmed(orig[..k], used)
    ensures (entries[..current] + entries[next..])[..current] == entries[..current]
    ensures (entries[..current] + entries[next..])[current..] == orig[k + (next - current)..]
    ensures k + (next - current) < |orig| ==>
      forall j :: 0 <= j < currentTag ==> used[j] < orig[k + (next - current)].key.begin
    ensures k + (next - current) < |orig| ==>
      forall j :: 0 <= j < current ==> (entries[..current] + entries[next..])[j].key.end <= orig[k + (next - current)].key.begin
  {
    SuffixAt(orig, entries, current, k, k);
    EraseBounds(orig, entries, current, k, used[currentTag], next);
    var k' := k + (next - current);
    BeginsFrom(orig, k);
    TrimSkip(orig, used, k, k', currentTag);
    EraseSlices(orig, entries, current, k, next);
    if k' < |orig| {
      Before(orig, k, k');
    }
  }

  /** Erasing `entries[current..next]` keeps the prefix and moves the common suffix on. */
  lemma EraseSlices(orig: seq<Entry>, entries: seq<Entry>, current: nat, k: nat, next: nat)
    requires current <= next <= |entries| && k <= |orig| && entries[current..] == orig[k..]
    ensures (entries[..current] + entries[next..])[..current] == entries[..current]
    ensures (entries[..current] + entries[next..])[current..] == orig[k + (next - current)..]
    ensures forall j :: 0 <= j < current ==> (entries[..current] + entries[next..])[j] == entries[j]
  {
    var e' := entries[..current] + entries[next..];
    assert entries[next..] == entries[current..][next - current..];
    assert e'[current..] == entries[next..];
  }

  lemma TrimStepKeep(orig: seq<Entry>, used: seq<Tag>, entries: seq<Entry>, current: nat, k: nat, currentTag: nat)
    requires TrimInv(orig, used, entries, current, k, currentTag)
    requires current < |entries| && currentTag < |used| && entries[current].key.Contains(used[currentTag])
    ensures TrimInv(orig, used, entries, current + 1, k + 1, TagLowerBound(used, entries[current].key.end))
  {
    KeepParts(orig, used, entries, current, k, currentTag);
  }

  /** The parts of the walk's state after keeping the current entry. */
  lemma KeepParts(orig: seq<Entry>, used: seq<Tag>, entries: seq<Entry>, current: nat, k: nat, currentTag: nat)
    requires Sorted(orig)
    requires current < |entries| && k <= |orig| && currentTag < |used|
    requires entries[..current] == Trimmed(orig[..k], used)
    requires entries[current..] == orig[k..]
    requires k < |orig| ==> forall j :: 0 <= j < current ==> entries[j].key.end <= orig[k].key.begin
    requires entries[current].key.Contains(used[currentTag])
    ensures k + 1 <= |orig| && TagLowerBound(used, entries[current].key.end) <= |used|
    ensures entries[..current + 1] == Trimmed(orig[..k + 1], used)
    ensures entries[current + 1..] == orig[k + 1..]
    ensures k + 1 < |orig| ==>
      forall j :: 0 <= j < TagLowerBound(used, entries[current].key.end) ==> used[j] < orig[k + 1].key.begin
    ensures k + 1 < |orig| ==>
      forall j :: 0 <= j < current + 1 ==> entries[j].key.end <= orig[k + 1].key.begin
  {
    assert entries[current] == entries[current..][0] == orig[k];
    TagLowerBoundBounds(used, entries[current].key.end);
    assert entries[..current + 1] == Trimmed(orig[..k + 1], used) by {
      TrimKeep(orig, used, k, currentTag);
      assert entries[..current + 1] == entries[..current] + [entries[current]];
    }
    assert entries[current + 1..] == entries[current..][1..];
    if k + 1 < |orig| {
      Before(orig, k, k + 1);
    }
  }

  lemma TrimDone(orig: seq<Entry>, used: seq<Tag>, entries: seq<Entry>, current: nat, k: nat, currentTag: nat)
    requires TrimInv(orig, used, entries, current, k, currentTag)
    requires current == |entries|
    ensures Sorted(entries) && entries == Trimmed(orig, used)
  {
    assert orig[k..] == [];
    assert orig[..k] == orig;
    assert entries[..current] == entries;
    TrimmedSorted(orig, used);
  }

  /** `Trim`'s first case: with no used tag left, the remaining entries are dropped. */
  lemma TrimRest(orig: seq<Entry>, used: seq<Tag>, k: nat)
    requires Sorted(orig) && k < |orig|
    requires forall j :: 0 <= j < |used| ==> used[j] < orig[k].key.begin
    ensures Trimmed(orig, used) == Trimmed(orig[..k], used)
  {
    forall m | 0 <= m < |orig[k..]|
      ensures !Referenced(orig[k..][m].key, used)
    {
      if m > 0 { assert orig[k].key.end <= orig[k + m].key.begin; }
    }
    TrimmedUnreferenced(orig[k..], used);
    assert orig == orig[..k] + orig[k..];
    TrimmedAppend(orig[..k], orig[k..], used);
  }

  /** `Trim`'s third case: the entries up to the one reaching past the current used
      tag hold no used tag, and are dropped. */
  lemma TrimSkip(orig: seq<Entry>, used: seq<Tag>, k: nat, k': nat, currentTag: nat)
    requires TagsSorted(used) && k < k' <= |orig| && currentTag < |used|
    requires forall m :: k <= m < |orig| ==> orig[k].key.begin <= orig[m].key.begin
    requires forall j :: 0 <= j < currentTag ==> used[j] < orig[k].key.begin
    requires forall m :: k <= m < k' ==> orig[m].key.end <= used[currentTag]
    requires k' < |orig| ==> used[currentTag] < orig[k'].key.end
    ensures Trimmed(orig[..k'], used) == Trimmed(orig[..k], used)
    ensures k' < |orig| ==> forall j :: 0 <= j < currentTag ==> used[j] < orig[k'].key.begin
  {
    var mid := orig[k..k'];
    forall m | 0 <= m < |mid|
      ensures !Referenced(mid[m].key, used)
    {
      assert mid[m] == orig[k + m];
      EntryUnreferenced(orig[k + m], used, currentTag, orig[k].key.begin);
    }
    TrimmedUnreferenced(mid, used);
    PrefixSplit(orig, k, k');
    TrimmedAppend(orig[..k], mid, used);
  }

  /** A longer prefix is a shorter one followed by the slice between them. */
  lemma PrefixSplit(es: seq<Entry>, k: nat, k': nat)
    requires k <= k' <= |es|
    ensures es[..k'] == es[..k] + es[k..k']
  {
  }

  /** In sorted entries every later entry begins no earlier than the one at `k`. */
  lemma BeginsFrom(es: seq<Entry>, k: nat)
    requires Sorted(es) && k < |es|
    ensures forall m :: k <= m < |es| ==> es[k].key.begin <= es[m].key.begin
  {
  }

  /** An entry lying above the tags before `currentTag` and ending at or before
      `used[currentTag]` holds no used tag. */
  lemma EntryUnreferenced(e: Entry, used: seq<Tag>, currentTag: nat, lo: nat)
    requires TagsSorted(used) && currentTag < |used|
    requires forall j :: 0 <= j < currentTag ==> used[j] < lo
    requires lo <= e.key.begin && e.key.end <= used[currentTag]
    ensures !Referenced(e.key, used)
  {
    forall j | 0 <= j < |used|
      ensures !e.key.Contains(used[j])
    {
      if currentTag < j { assert used[currentTag] < used[j]; }
    }
  }

  /** `Trim`'s last case: the current entry holds the current used tag and is kept. */
  lemma TrimKeep(orig: seq<Entry>, used: seq<Tag>, k: nat, currentTag: nat)
    requires k < |orig| && currentTag < |used| && orig[k].key.Contains(used[currentTag])
    ensures Trimmed(orig[..k + 1], used) == Trimmed(orig[..k], used) + [orig[k]]
  {
    assert orig[..k + 1] == orig[..k] + [orig[k]];
    TrimmedAppend(orig[..k], [orig[k]], used);
    assert [orig[k]][1..] == [];
  }
}
