/** `ReplayState::ValidateFirstUse`: replaying a recorded command buffer at
    submit time, the tag line of the recording is cut at each recorded sync
    operation, and every stretch between two of them is checked for first-use
    hazards against the queue's state. The hazard checks and the replayed
    sync operations act on access state that is not part of this model, so
    they are given as predicates. */
module Replay {
  import opened Ranges
  import opened SyncIds

  /** The first-use ranges from `begin` on, for sync operations at `tags`: up to
      each sync op, resuming just after it, and finally up to `kMaxIndex`. */
  function FirstUseFrom(begin: Tag, tags: seq<Tag>): (r: seq<Range>)
    ensures |r| == |tags| + 1
    ensures r[0].begin == begin
    ensures r[|r| - 1].end == MaxTag
    decreases |tags|
  {
    if |tags| == 0 then [Range(begin, MaxTag)]
    else [Range(begin, tags[0])] + FirstUseFrom(tags[0] + 1, tags[1..])
  }

  /** The ranges `ValidateFirstUse` checks: [0, t1), [t1+1, t2), …, [tn+1, kMaxIndex). */
  function FirstUseRanges(tags: seq<Tag>): seq<Range> {
    FirstUseFrom(0, tags)
  }

  /** Sync operations are recorded at strictly increasing tags below `kMaxIndex`. */
  predicate SyncTagsOrdered(tags: seq<Tag>) {
    && (forall i :: 0 <= i < |tags| ==> tags[i] < MaxTag)
    && (forall i, j :: 0 <= i < j < |tags| ==> tags[i] < tags[j])
  }

  lemma {:induction false} FirstUseFromCovers(begin: Tag, tags: seq<Tag>, x: Tag)
    requires SyncTagsOrdered(tags)
    requires |tags| > 0 ==> begin <= tags[0]
    ensures InSome(FirstUseFrom(begin, tags), x) <==> begin <= x < MaxTag && x !in tags
    decreases |tags|
  {
    var r := FirstUseFrom(begin, tags);
    if |tags| > 0 {
      var rest := FirstUseFrom(tags[0] + 1, tags[1..]);
      assert r == [Range(begin, tags[0])] + rest;
      InSomeCons(Range(begin, tags[0]), rest, x);
      TailOrdered(tags, x);
      FirstUseFromCovers(tags[0] + 1, tags[1..], x);
    } else {
      InSomeCons(Range(begin, MaxTag), [], x);
      assert r == [Range(begin, MaxTag)] + [];
    }
  }

  /** The tail of ordered sync tags is ordered and lies above the head. */
  lemma TailOrdered(tags: seq<Tag>, x: Tag)
    requires SyncTagsOrdered(tags) && |tags| > 0
    ensures SyncTagsOrdered(tags[1..]) && tags[0] < MaxTag
    ensures |tags| > 1 ==> tags[0] + 1 <= tags[1..][0]
    ensures x in tags <==> x == tags[0] || x in tags[1..]
    ensures x <= tags[0] ==> x !in tags[1..]
  {
    assert tags == [tags[0]] + tags[1..];
    if x in tags[1..] {
      var k :| 0 <= k < |tags[1..]| && tags[1..][k] == x;
      assert tags[k + 1] == x;
    }
  }

  /** The first-use ranges cover every tag below `kMaxIndex` except the sync
      operations' own tags. */
  lemma FirstUseCoversAllButSyncOps(tags: seq<Tag>, x: Tag)
    requires SyncTagsOrdered(tags)
    ensures InSome(FirstUseRanges(tags), x) <==> x < MaxTag && x !in tags
  {
    FirstUseFromCovers(0, tags, x);
  }

  /** Consecutive first-use ranges are ordered and separated by the sync op
      between them. */
  lemma {:induction false} FirstUseFromOrdered(begin: Tag, tags: seq<Tag>, i: nat)
    requires i < |tags|
    ensures FirstUseFrom(begin, tags)[i].end == tags[i]
    ensures FirstUseFrom(begin, tags)[i + 1].begin == tags[i] + 1
    decreases |tags|
  {
    var rest := FirstUseFrom(tags[0] + 1, tags[1..]);
    assert FirstUseFrom(begin, tags) == [Range(begin, tags[0])] + rest;
    if i > 0 {
      FirstUseFromOrdered(tags[0] + 1, tags[1..], i - 1);
    }
  }

  /** Whether any of the first `count` replayed sync ops reports a hazard. */
  function AnyReplayHazard(count: nat, replayHazard: nat -> bool): (r: bool)
    ensures r <==> exists i :: 0 <= i < count && replayHazard(i)
  {
    if count == 0 then false else AnyReplayHazard(count - 1, replayHazard) || replayHazard(count - 1)
  }

  /** `ValidateFirstUse()`. `validForSyncOps` is `exec_context_.ValidForSyncOps()`;
      `firstUseHazard(range)` is `DetectFirstUseHazard(range)`; `replayHazard(i)`
      is the i-th sync op's `ReplayValidate`. Returns whether a hazard was found,
      the ranges checked and the tags at which the sync ops were replayed
      (`base_tag_ + tag`). */
  method ValidateFirstUse(validForSyncOps: bool, syncTags: seq<Tag>, baseTag: Tag,
                          firstUseHazard: Range -> bool, replayHazard: nat -> bool)
    returns (skip: bool, checked: seq<Range>, replayed: seq<Tag>)
    ensures checked == if validForSyncOps then FirstUseRanges(syncTags) else []
    ensures |replayed| == if validForSyncOps then |syncTags| else 0
    ensures forall i :: 0 <= i < |replayed| ==> replayed[i] == baseTag + syncTags[i]
    ensures skip == (AnyHazard(checked, firstUseHazard) || (validForSyncOps && AnyReplayHazard(|syncTags|, replayHazard)))
  {
    checked := [];
    replayed := [];
    if !validForSyncOps { return false, checked, replayed; }
    ghost var all := FirstUseRanges(syncTags);
    skip := false;
    var firstUseRange := Range(0, 0);
    var i := 0;
    while i < |syncTags|
      invariant i <= |syncTags| && |all| == |syncTags| + 1
      invariant firstUseRange.begin == StartOf(syncTags, i)
      invariant checked == all[..i]
      invariant |replayed| == i && forall k :: 0 <= k < i ==> replayed[k] == baseTag + syncTags[k]
      invariant skip == (AnyHazard(checked, firstUseHazard) || AnyReplayHazard(i, replayHazard))
    {
      firstUseRange := firstUseRange.(end := syncTags[i]);
      FirstUseRangeAt(syncTags, i);
      AnyHazardSnoc(checked, firstUseRange, firstUseHazard);
      skip := firstUseHazard(firstUseRange) || skip;
      assert all[..i + 1] == all[..i] + [all[i]];
      checked := checked + [firstUseRange];
      skip := replayHazard(i) || skip;
      replayed := replayed + [baseTag + syncTags[i]];
      firstUseRange := firstUseRange.(begin := syncTags[i] + 1);
      i := i + 1;
    }
    firstUseRange := firstUseRange.(end := MaxTag);
    FirstUseRangeAt(syncTags, i);
    AnyHazardSnoc(checked, firstUseRange, firstUseHazard);
    assert all == all[..i] + [all[i]];
    checked := checked + [firstUseRange];
    skip := firstUseHazard(firstUseRange) || skip;
  }

  /** Where the i-th first-use range begins: at 0, or just after the previous sync op. */
  function StartOf(tags: seq<Tag>, i: nat): Tag
    requires i <= |tags|
  {
    if i == 0 then 0 else tags[i - 1] + 1
  }

  /** The i-th first-use range runs from `StartOf(tags, i)` to the i-th sync op,
      the last one up to `kMaxIndex`. */
  lemma FirstUseRangeAt(tags: seq<Tag>, i: nat)
    requires i <= |tags|
    ensures FirstUseRanges(tags)[i] == Range(StartOf(tags, i), if i < |tags| then tags[i] else MaxTag)
  {
    if i < |tags| { FirstUseFromOrdered(0, tags, i); }
    if i > 0 { FirstUseFromOrdered(0, tags, i - 1); }
  }
}
