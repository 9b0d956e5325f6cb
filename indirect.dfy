/** The buffer ranges an indirect draw or dispatch reads its parameters from:
    `drawCount` structures of `structSize` bytes, `stride` bytes apart, from
    `offset` on. When the structures are packed (one draw, or a stride equal to
    the structure size) the reads are fused into one range. The hazard check
    and the access-state update act on state that is not part of this model,
    so the check is given as a predicate and the update is represented by the
    ranges it is applied to. */
module IndirectBuffer {
  import opened Ranges

  /** `uint32_t` arithmetic wraps modulo 2^32. */
  const U32Mod: nat := 0x1_0000_0000

  /** `offset + i * stride` as written: `i` and `stride` are both `uint32_t`,
      so their product is taken modulo 2^32 before it is widened and added. */
  function DrawOffsetAsWritten(offset: nat, i: nat, stride: nat): (r: nat)
    ensures offset <= r < offset + U32Mod
    ensures i * stride < U32Mod ==> r == offset + i * stride
  {
    offset + (i * stride) % U32Mod
  }

  /** The bytes of the i-th structure, at the intended 64-bit offset. */
  function DrawRange(structSize: nat, offset: nat, i: nat, stride: nat): (r: Range)
    ensures r.Valid() && r.Size() == structSize
    ensures r.begin == offset + i * stride
  {
    MakeRange(offset + i * stride, structSize)
  }

  /** Whether byte `x` belongs to one of the first `drawCount` structures. */
  ghost predicate ReadByDraws(structSize: nat, offset: nat, drawCount: nat, stride: nat, x: nat) {
    exists i :: 0 <= i < drawCount && DrawRange(structSize, offset, i, stride).Contains(x)
  }

  /** Whether the reads may be fused into one range. */
  predicate Packed(structSize: nat, drawCount: nat, stride: nat) {
    drawCount == 1 || stride == structSize
  }

  /** The ranges `RecordIndirectBuffer` records, as written: no early return for
      zero draws, and the per-draw offsets computed with the 32-bit product. */
  function RecordedRangesAsWritten(structSize: nat, offset: nat, drawCount: nat, stride: nat): (r: seq<Range>)
    ensures Packed(structSize, drawCount, stride) ==> |r| == 1 && r[0].begin == offset
    ensures !Packed(structSize, drawCount, stride) ==> |r| == drawCount
  {
    if Packed(structSize, drawCount, stride) then
      [MakeRange(offset, if drawCount > 1 then structSize * drawCount else structSize)]
    else
      seq(drawCount, (i: int) requires 0 <= i => MakeRange(DrawOffsetAsWritten(offset, i, stride), structSize))
  }

  /** The ranges an indirect command reads, as both the validation and the record
      path intend: nothing for zero draws, one fused range when packed, else one
      range per draw at its 64-bit offset. */
  function AccessRanges(structSize: nat, offset: nat, drawCount: nat, stride: nat): (r: seq<Range>)
    ensures drawCount == 0 ==> r == []
    ensures drawCount > 0 && Packed(structSize, drawCount, stride) ==> |r| == 1 && r[0].begin == offset
    ensures drawCount > 0 && !Packed(structSize, drawCount, stride) ==> |r| == drawCount
  {
    if drawCount == 0 then []
    else if Packed(structSize, drawCount, stride) then
      [MakeRange(offset, if drawCount > 1 then structSize * drawCount else structSize)]
    else
      seq(drawCount, (i: int) requires 0 <= i => DrawRange(structSize, offset, i, stride))
  }

  /** Multiplication by a natural keeps order. */
  lemma MulMono(a: nat, b: nat, c: nat)
    requires a <= b
    ensures a * c <= b * c
  {
  }

  /** Euclidean division bounds the dividend between two consecutive multiples. */
  lemma DivBounds(d: nat, s: nat)
    requires s > 0
    ensures (d / s) * s <= d < (d / s) * s + s
  {
  }

  /** A byte of a draw lies within the fused range of `n` packed structures. */
  lemma PackedDrawInside(size: nat, offset: nat, n: nat, i: nat, x: nat)
    requires i < n && DrawRange(size, offset, i, size).Contains(x)
    ensures MakeRange(offset, size * n).Contains(x)
  {
    MulMono(i + 1, n, size);
    assert (i + 1) * size == i * size + size;
    assert size * n == n * size;
  }

  /** A byte of the fused range lies in the draw numbered by its offset divided by the size. */
  lemma PackedDrawOf(size: nat, offset: nat, n: nat, x: nat) returns (i: nat)
    requires MakeRange(offset, size * n).Contains(x)
    ensures i < n && DrawRange(size, offset, i, size).Contains(x)
  {
    var d := x - offset;
    assert size > 0;
    i := d / size;
    DivBounds(d, size);
    assert n * size == size * n;
    if n <= i {
      MulMono(n, i, size);
    }
  }

  /** With a stride equal to the structure size the structures tile
      [offset, offset + size * n) without gaps. */
  lemma PackedTiles(size: nat, offset: nat, n: nat, x: nat)
    requires n > 0
    ensures MakeRange(offset, size * n).Contains(x) <==> ReadByDraws(size, offset, n, size, x)
  {
    if ReadByDraws(size, offset, n, size, x) {
      var i :| 0 <= i < n && DrawRange(size, offset, i, size).Contains(x);
      PackedDrawInside(size, offset, n, i, x);
    }
    if MakeRange(offset, size * n).Contains(x) {
      var i := PackedDrawOf(size, offset, n, x);
    }
  }

  /** The ranges cover exactly the bytes of the draws' structures, whether they
      were fused or not. */
  lemma AccessRangesCoverDraws(structSize: nat, offset: nat, drawCount: nat, stride: nat, x: nat)
    ensures InSome(AccessRanges(structSize, offset, drawCount, stride), x)
        <==> ReadByDraws(structSize, offset, drawCount, stride, x)
  {
    var r := AccessRanges(structSize, offset, drawCount, stride);
    if drawCount == 0 {
    } else if Packed(structSize, drawCount, stride) {
      InSomeCons(r[0], [], x);
      assert r == [r[0]] + [];
      if drawCount == 1 {
        assert r[0] == DrawRange(structSize, offset, 0, stride);
      } else {
        PackedTiles(structSize, offset, drawCount, x);
      }
    } else {
      if ReadByDraws(structSize, offset, drawCount, stride, x) {
        var i :| 0 <= i < drawCount && DrawRange(structSize, offset, i, stride).Contains(x);
        assert r[i] == DrawRange(structSize, offset, i, stride);
      }
      if InSome(r, x) {
        var i :| 0 <= i < |r| && r[i].Contains(x);
        assert r[i] == DrawRange(structSize, offset, i, stride);
      }
    }
  }

  /** The record path as written reads a structure for a command with no draws
      (vkCmdDrawIndexedIndirect records without checking `drawCount`). */
  lemma AsWrittenRecordsZeroDraws()
    ensures RecordedRangesAsWritten(20, 0, 0, 20) == [Range(0, 20)]
    ensures AccessRanges(20, 0, 0, 20) == []
  {
  }

  /** The 32-bit product sends a draw far into the buffer back onto the first one:
      with a stride of 0x10000 the draw at index 0x10000 lands at `offset`. */
  lemma AsWrittenDrawOffsetWraps()
    ensures DrawOffsetAsWritten(0, 0x10000, 0x10000) == 0
    ensures DrawRange(20, 0, 0x10000, 0x10000).begin == 0x1_0000_0000
  {
  }

  /** Beyond the two defects the as-written record path reads the intended ranges. */
  lemma AsWrittenAgreesWithoutWrap(structSize: nat, offset: nat, drawCount: nat, stride: nat)
    requires drawCount > 0
    requires drawCount * stride < U32Mod
    ensures RecordedRangesAsWritten(structSize, offset, drawCount, stride) == AccessRanges(structSize, offset, drawCount, stride)
  {
    if !Packed(structSize, drawCount, stride) {
      var a := RecordedRangesAsWritten(structSize, offset, drawCount, stride);
      var b := AccessRanges(structSize, offset, drawCount, stride);
      forall i | 0 <= i < drawCount
        ensures a[i] == b[i]
      {
        MulMono(i, drawCount, stride);
      }
    }
  }

  /** `ValidateIndirectBuffer`: checks each range for a hazard, stopping at the
      first one found in the per-draw loop. Returns whether a hazard was reported
      and the ranges checked. */
  method ValidateIndirectBuffer(structSize: nat, offset: nat, drawCount: nat, stride: nat, hazard: Range -> bool)
    returns (skip: bool, checked: seq<Range>)
    ensures skip == AnyHazard(AccessRanges(structSize, offset, drawCount, stride), hazard)
    ensures |checked| <= |AccessRanges(structSize, offset, drawCount, stride)|
    ensures checked == AccessRanges(structSize, offset, drawCount, stride)[..|checked|]
    ensures !skip ==> checked == AccessRanges(structSize, offset, drawCount, stride)
    ensures skip ==> |checked| > 0 && hazard(checked[|checked| - 1]) && !AnyHazard(checked[..|checked| - 1], hazard)
  {
    ghost var all := AccessRanges(structSize, offset, drawCount, stride);
    checked := [];
    skip := false;
    if drawCount == 0 { return; }
    if drawCount == 1 || stride == structSize {
      var size := structSize;
      if drawCount > 1 { size := size * drawCount; }
      var range := MakeRange(offset, size);
      checked := [range];
      skip := hazard(range);
      assert checked[..0] == [];
      assert all == checked;
    } else {
      var i := 0;
      while i < drawCount
        invariant i <= drawCount && checked == all[..i] && !skip
        invariant !AnyHazard(checked, hazard)
      {
        var range := MakeRange(offset + i * stride, structSize);
        assert range == all[i];
        AnyHazardSnoc(checked, range, hazard);
        assert all[..i + 1] == checked + [range];
        checked := checked + [range];
        if hazard(range) {
          skip := true;
          assert checked[..|checked| - 1] == all[..i];
          AnyHazardPrefix(all, i + 1, hazard);
          return;
        }
        i := i + 1;
      }
      assert all[..i] == all;
    }
  }

  /** A hazard in a prefix is a hazard in the whole sequence. */
  lemma AnyHazardPrefix(ranges: seq<Range>, n: nat, hazard: Range -> bool)
    requires n <= |ranges|
    ensures AnyHazard(ranges[..n], hazard) ==> AnyHazard(ranges, hazard)
  {
    if AnyHazard(ranges[..n], hazard) {
      var i :| 0 <= i < n && hazard(ranges[..n][i]);
      assert ranges[i] == ranges[..n][i];
    }
  }

  /** `RecordIndirectBuffer`, with the zero-draw early return and the 64-bit
      offsets: the ranges whose access state is updated with the command's tag. */
  method RecordIndirectBuffer(structSize: nat, offset: nat, drawCount: nat, stride: nat)
    returns (recorded: seq<Range>)
    ensures recorded == AccessRanges(structSize, offset, drawCount, stride)
  {
    recorded := [];
    if drawCount == 0 { return; }
    if drawCount == 1 || stride == structSize {
      var size := structSize;
      if drawCount > 1 { size := size * drawCount; }
      recorded := [MakeRange(offset, size)];
    } else {
      ghost var all := AccessRanges(structSize, offset, drawCount, stride);
      var i := 0;
      while i < drawCount
        invariant i <= drawCount && recorded == all[..i]
      {
        assert all[..i + 1] == all[..i] + [all[i]];
        recorded := recorded + [MakeRange(offset + i * stride, structSize)];
        i := i + 1;
      }
      assert all[..i] == all;
    }
  }
}
