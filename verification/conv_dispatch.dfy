/** How the forward kernel is launched and how each work item finds its
    slice of the buffers: the NDRange sizes `Forward_cpu` of
    src/caffe/layers/conv_layer.cpp enqueues, the batch and group a work
    item decodes from `get_global_id(2)`, and the group pointer offsets the
    kernel text computes from them. */
module ConvDispatch {
  import opened Arith
  import ConvKernel

  // ---------------------------------------------------------------------
  // Batch and group of a work item

  /** `get_global_id(2)` read as (batch, group): split by the group count
      when there are several groups, the whole id is the batch otherwise. */
  function BatchAndGroup(gid: int, groupCount: int): (bg: (int, int))
    requires groupCount > 0
    ensures gid >= 0 ==> bg.0 >= 0 && 0 <= bg.1 < groupCount && bg.0 * groupCount + bg.1 == gid
  {
    if groupCount > 1 then
      DivMod(gid, groupCount);
      (gid / groupCount, gid % groupCount)
    else (gid, 0)
  }

  /** Every (batch, group) pair with the group below the group count is the
      decoding of `batch * groupCount + group`. With the contract of
      `BatchAndGroup` (each non-negative id decodes to a pair that encodes
      back to it) the decoding is a bijection. */
  lemma BatchAndGroupBijective(batch: int, grp: int, groupCount: int)
    requires groupCount > 0 && 0 <= grp < groupCount
    ensures BatchAndGroup(batch * groupCount + grp, groupCount) == (batch, grp)
  {
    SplitIndex(batch, grp, groupCount, batch + 1);
  }

  // ---------------------------------------------------------------------
  // Group pointer offsets

  /** Offsets of the kernel's four pointers from the start of their
      buffers: weights `Aptr`, input `Bptr`, output `Cptr`, bias `Dptr`. */
  datatype Pointers = Pointers(a: int, b: int, c: int, d: int)

  /** The pointer offsets of one (batch, group) work item: with several
      groups, the group's block of M x K weights, its slice of the batch
      image, its M x N block of the batch output and its M bias entries;
      with one group, the whole weights, image, output and bias. */
  function GroupPointers(groupCount: int, batch: int, grp: int, m: int, n: int, k: int,
                         bOff: int, cOff: int, fout: int): (p: Pointers)
    requires groupCount > 0
    ensures grp == 0 ==> p == Pointers(0, bOff * batch, cOff * batch, 0)
  {
    if groupCount > 1 then
      Pointers(grp * (m * k), bOff * batch + grp * TruncDiv(bOff, groupCount),
               cOff * batch + grp * (m * n), grp * TruncDiv(fout, groupCount))
    else
      Pointers(0, bOff * batch, cOff * batch, 0)
  }

  /** With one group (`fout == m`) the whole third id is the batch, and its
      pointers are those of group 0 under any grouping: the whole weights
      and bias, and the batch's image and its output block
      `[gid * m * n, (gid + 1) * m * n)`, inside the launch's output. */
  lemma SingleGroupPointers(gid: int, batches: int, groupCount: int, m: int, n: int, k: int, bOff: int)
    requires groupCount > 0 && m > 0 && n > 0 && 0 <= gid < batches
    ensures BatchAndGroup(gid, 1) == (gid, 0)
    ensures var p := GroupPointers(1, gid, 0, m, n, k, bOff, m * n, m);
      && p == GroupPointers(groupCount, gid, 0, m, n, k, bOff, m * n, m)
      && p.c == gid * (m * n) && 0 <= p.c && p.c + m * n <= batches * (m * n)
  {
    MulLeft(m, 0, n);
    SliceInRange(gid, batches, m * n);
  }

  /** With `fout = groupCount * m` output maps and `cOff = fout * n`, the
      output block of (batch, group) starts at `(batch * groupCount +
      group) * m * n` and lies inside the `batches * cOff` outputs of the
      launch. */
  lemma OutputBlockStart(groupCount: int, batches: int, batch: int, grp: int, m: int, n: int, k: int,
                         bOff: int, fout: int)
    requires groupCount > 1 && m > 0 && n > 0 && fout == groupCount * m
    requires 0 <= batch < batches && 0 <= grp < groupCount
    ensures var c := GroupPointers(groupCount, batch, grp, m, n, k, bOff, fout * n, fout).c;
      && c == (batch * groupCount + grp) * (m * n)
      && 0 <= c && c + m * n <= batches * (fout * n)
  {
    var mn := m * n;
    var id := batch * groupCount + grp;
    assert fout * n == groupCount * mn;
    assert (fout * n) * batch == (batch * groupCount) * mn;
    assert (batch * groupCount) * mn + grp * mn == id * mn;
    SplitIndex(batch, grp, groupCount, batches);
    MulLeft(id, 0, mn);
    MulLeft(batches * groupCount - 1, id, mn);
    assert batches * (fout * n) == (batches * groupCount) * mn;
  }

  /** ... and every output element of the launch lies in the block of the
      pair its block number names: the blocks cover the output. */
  lemma OutputBlockOwner(groupCount: int, batches: int, m: int, n: int, k: int, bOff: int, fout: int, x: int)
    requires groupCount > 1 && m > 0 && n > 0 && fout == groupCount * m
    requires 0 <= x < batches * (fout * n)
    ensures var id := x / (m * n);
      && 0 <= id / groupCount < batches && 0 <= id % groupCount < groupCount
      && GroupPointers(groupCount, id / groupCount, id % groupCount, m, n, k, bOff, fout * n, fout).c
         <= x < GroupPointers(groupCount, id / groupCount, id % groupCount, m, n, k, bOff, fout * n, fout).c + m * n
  {
    var mn := m * n;
    assert batches * (fout * n) == (batches * groupCount) * mn;
    var id := x / mn;
    JoinIndex(x, mn, batches * groupCount);
    JoinIndex(id, groupCount, batches);
    var b, g := id / groupCount, id % groupCount;
    OutputBlockStart(groupCount, batches, b, g, m, n, k, bOff, fout);
    assert b * groupCount + g == id;
    assert id * mn <= x < id * mn + mn;
  }

  /** Distinct (batch, group) pairs have disjoint output blocks: an output
      element in the block of two pairs belongs to one pair. */
  lemma OutputBlocksDisjoint(groupCount: int, batches: int, b1: int, g1: int, b2: int, g2: int,
                             m: int, n: int, k: int, bOff: int, fout: int, x: int)
    requires groupCount > 1 && m > 0 && n > 0 && fout == groupCount * m
    requires 0 <= b1 < batches && 0 <= g1 < groupCount && 0 <= b2 < batches && 0 <= g2 < groupCount
    ensures var c1 := GroupPointers(groupCount, b1, g1, m, n, k, bOff, fout * n, fout).c;
            var c2 := GroupPointers(groupCount, b2, g2, m, n, k, bOff, fout * n, fout).c;
      c1 <= x < c1 + m * n && c2 <= x < c2 + m * n ==> b1 == b2 && g1 == g2
  {
    OutputBlockStart(groupCount, batches, b1, g1, m, n, k, bOff, fout);
    OutputBlockStart(groupCount, batches, b2, g2, m, n, k, bOff, fout);
    MulLeft(m, 0, n);
    SliceOwner(b1 * groupCount + g1, b2 * groupCount + g2, m * n, x);
    BatchAndGroupBijective(b1, g1, groupCount);
    BatchAndGroupBijective(b2, g2, groupCount);
  }

  /** With `fin = groupCount * cpg` input maps and `bOff = fin * imsi`, the
      input pointer of (batch, group) starts the group's `cpg * imsi`
      elements inside the batch image `[bOff * batch, bOff * (batch + 1))`. */
  lemma InputSliceInImage(groupCount: int, batch: int, grp: int, m: int, n: int, k: int,
                          cpg: int, imsi: int, fout: int)
    requires groupCount > 0 && cpg >= 0 && imsi >= 0 && batch >= 0 && 0 <= grp < groupCount
    ensures var bOff := groupCount * (cpg * imsi);
      var b := GroupPointers(groupCount, batch, grp, m, n, k, bOff, 0, fout).b;
      bOff * batch <= b && b + cpg * imsi <= bOff * (batch + 1)
  {
    var slice := cpg * imsi;
    var bOff := groupCount * slice;
    MulLeft(cpg, 0, imsi);
    assert TruncDiv(bOff, groupCount) == slice by {
      MulLeft(slice, 0, groupCount);
      DivModUnique(bOff, groupCount, slice, 0);
    }
    MulLeft(grp, 0, slice);
    MulLeft(groupCount, grp + 1, slice);
    assert bOff * (batch + 1) == bOff * batch + bOff;
    assert (grp + 1) * slice == grp * slice + slice;
  }

  /** Distinct (batch, group) pairs read disjoint input slices: an input
      element in the slice of two pairs belongs to one pair, so the groups
      of one image read disjoint channels. */
  lemma InputSlicesDisjoint(groupCount: int, b1: int, g1: int, b2: int, g2: int, m: int, n: int, k: int,
                            cpg: int, imsi: int, fout: int, x: int)
    requires groupCount > 0 && cpg >= 0 && imsi >= 0 && 0 <= g1 < groupCount && 0 <= g2 < groupCount
    ensures var bOff := groupCount * (cpg * imsi);
            var s1 := GroupPointers(groupCount, b1, g1, m, n, k, bOff, 0, fout).b;
            var s2 := GroupPointers(groupCount, b2, g2, m, n, k, bOff, 0, fout).b;
      s1 <= x < s1 + cpg * imsi && s2 <= x < s2 + cpg * imsi ==> b1 == b2 && g1 == g2
  {
    var slice := cpg * imsi;
    var bOff := groupCount * slice;
    MulLeft(cpg, 0, imsi);
    assert TruncDiv(bOff, groupCount) == slice by {
      MulLeft(slice, 0, groupCount);
      DivModUnique(bOff, groupCount, slice, 0);
    }
    assert GroupPointers(groupCount, b1, g1, m, n, k, bOff, 0, fout).b == (b1 * groupCount + g1) * slice;
    assert GroupPointers(groupCount, b2, g2, m, n, k, bOff, 0, fout).b == (b2 * groupCount + g2) * slice;
    SliceOwner(b1 * groupCount + g1, b2 * groupCount + g2, slice, x);
    BatchAndGroupBijective(b1, g1, groupCount);
    BatchAndGroupBijective(b2, g2, groupCount);
  }

  /** With `fout = groupCount * m`, the group's weights `[a, a + m * k)`
      lie inside the `groupCount * m * k` weights of the layer and its bias
      entries `[d, d + m)` inside the `fout` biases. */
  lemma WeightAndBiasSlices(groupCount: int, batch: int, grp: int, m: int, n: int, k: int,
                            bOff: int, cOff: int, fout: int)
    requires groupCount > 0 && m >= 0 && k >= 0 && fout == groupCount * m && 0 <= grp < groupCount
    ensures var p := GroupPointers(groupCount, batch, grp, m, n, k, bOff, cOff, fout);
      && 0 <= p.a && p.a + m * k <= groupCount * (m * k)
      && 0 <= p.d && p.d + m <= fout
  {
    assert TruncDiv(fout, groupCount) == m by {
      MulLeft(m, 0, groupCount);
      DivModUnique(fout, groupCount, m, 0);
    }
    var mk := m * k;
    MulLeft(m, 0, k);
    SliceInRange(grp, groupCount, mk);
    SliceInRange(grp, groupCount, m);
  }

  /** Distinct groups use disjoint weights and disjoint bias entries,
      whatever batch image they work on. */
  lemma WeightAndBiasSlicesDisjoint(groupCount: int, batch1: int, g1: int, batch2: int, g2: int,
                                    m: int, n: int, k: int, bOff: int, cOff: int, fout: int, x: int)
    requires groupCount > 0 && m >= 0 && k >= 0 && fout == groupCount * m
    requires 0 <= g1 < groupCount && 0 <= g2 < groupCount
    ensures var p1 := GroupPointers(groupCount, batch1, g1, m, n, k, bOff, cOff, fout);
            var p2 := GroupPointers(groupCount, batch2, g2, m, n, k, bOff, cOff, fout);
      && (p1.a <= x < p1.a + m * k && p2.a <= x < p2.a + m * k ==> g1 == g2)
      && (p1.d <= x < p1.d + m && p2.d <= x < p2.d + m ==> g1 == g2)
  {
    assert TruncDiv(fout, groupCount) == m by {
      MulLeft(m, 0, groupCount);
      DivModUnique(fout, groupCount, m, 0);
    }
    MulLeft(m, 0, k);
    SliceOwner(g1, g2, m * k, x);
    SliceOwner(g1, g2, m, x);
  }

  // ---------------------------------------------------------------------
  // Launch sizes

  datatype NDRange = NDRange(x: int, y: int, z: int)

  /** The work-group size the kernel requires and the launch uses. */
  const LocalSize: NDRange := NDRange(ConvKernel.RTSN, ConvKernel.RTSM, 1)

  /** Work-groups needed to cover `count` positions with blocks of 64,
      with C++ division: `(count - 1) / 64 + 1`. */
  function BlocksFor(count: int): int
  {
    TruncDiv(count - 1, ConvKernel.TSM) + 1
  }

  /** The global NDRange `Forward_cpu` enqueues, from the output shape
      (batch, maps, height, width), the batch size and the group count. */
  function GlobalSize(top: seq<int>, batches: int, groupCount: int): (r: NDRange)
    requires |top| >= 4 && groupCount > 0
    ensures r.x % LocalSize.x == 0 && r.x / LocalSize.x == BlocksFor(top[2] * top[3])
    ensures r.y % LocalSize.y == 0 && r.y / LocalSize.y == BlocksFor(TruncDiv(top[1], groupCount))
    ensures r.z == batches
  {
    var blocksX := BlocksFor(top[2] * top[3]);
    var blocksY := BlocksFor(TruncDiv(top[1], groupCount));
    DivModUnique(blocksX * 16, 16, blocksX, 0);
    DivModUnique(blocksY * 16, 16, blocksY, 0);
    NDRange(blocksX * 16, blocksY * 16, batches * 1)
  }

  /** The blocks of 64 cover every position and are as few as can: one
      fewer would leave a position out. */
  lemma BlocksForCovers(count: int)
    requires count >= 0
    ensures BlocksFor(count) >= 1 && BlocksFor(count) * ConvKernel.TSM >= count
    ensures count >= 1 ==> (BlocksFor(count) - 1) * ConvKernel.TSM < count
  {
    TruncDivSign(count - 1, ConvKernel.TSM);
  }

  /** The first two dimensions of the launch: a whole number of 16 x 16
      work-groups, enough of them that every output column (height times
      width) and every output row of a group (maps per group) has an owner
      in the sense of `ConvKernel.PositionOwner`. */
  lemma LaunchCoversOutputPlane(top: seq<int>, batches: int, groupCount: int)
    requires |top| >= 4 && groupCount > 0 && top[1] >= 0 && top[2] >= 0 && top[3] >= 0
    ensures var gs := GlobalSize(top, batches, groupCount);
      && gs.x % LocalSize.x == 0 && gs.y % LocalSize.y == 0
      && (gs.x / LocalSize.x) * ConvKernel.TSN >= top[2] * top[3]
      && (gs.y / LocalSize.y) * ConvKernel.TSM >= TruncDiv(top[1], groupCount)
  {
    var plane := top[2] * top[3];
    var maps := TruncDiv(top[1], groupCount);
    MulLeft(top[2], 0, top[3]);
    TruncDivSign(top[1], groupCount);
    BlocksForCovers(plane);
    BlocksForCovers(maps);
    DivModUnique(BlocksFor(plane) * 16, 16, BlocksFor(plane), 0);
    DivModUnique(BlocksFor(maps) * 16, 16, BlocksFor(maps), 0);
  }

  /** As enqueued, the third dimension holds one id per batch image. With
      several groups the kernel splits that id into (batch, group), so the
      pair (last batch, last group) is never decoded: its output block is
      never written. */
  lemma GroupedLaunchMissesPairs(top: seq<int>, batches: int, groupCount: int)
    requires |top| >= 4 && groupCount > 1 && batches >= 1
    ensures forall gid :: 0 <= gid < GlobalSize(top, batches, groupCount).z ==>
      BatchAndGroup(gid, groupCount) != (batches - 1, groupCount - 1)
  {
    // the id the pair would need lies past the last id of the launch
    assert (batches - 1) * groupCount + (groupCount - 1) >= batches by {
      MulLeft(groupCount, 2, batches);
    }
  }

  /** The launch with one id per (batch, group) pair in the third
      dimension. */
  function CorrectedGlobalSize(top: seq<int>, batches: int, groupCount: int): (r: NDRange)
    requires |top| >= 4 && groupCount > 0
    ensures r.x == GlobalSize(top, batches, groupCount).x && r.y == GlobalSize(top, batches, groupCount).y
    ensures r.z == batches * groupCount
  {
    var launched := GlobalSize(top, batches, groupCount);
    NDRange(launched.x, launched.y, batches * groupCount)
  }

  /** With the corrected launch, every (batch, group) pair is decoded from
      exactly one id of the third dimension, and every id decodes to a
      pair of an existing batch image and group. */
  lemma CorrectedLaunchCoversPairs(top: seq<int>, batches: int, groupCount: int, batch: int, grp: int, gid: int)
    requires |top| >= 4 && groupCount > 0 && batches >= 0
    ensures 0 <= batch < batches && 0 <= grp < groupCount ==>
      var id := batch * groupCount + grp;
      0 <= id < CorrectedGlobalSize(top, batches, groupCount).z && BatchAndGroup(id, groupCount) == (batch, grp)
    ensures 0 <= gid < CorrectedGlobalSize(top, batches, groupCount).z ==>
      var (b, g) := BatchAndGroup(gid, groupCount);
      0 <= b < batches && 0 <= g < groupCount && b * groupCount + g == gid
  {
    if 0 <= batch < batches && 0 <= grp < groupCount {
      BatchAndGroupBijective(batch, grp, groupCount);
      SplitIndex(batch, grp, groupCount, batches);
    }
    if 0 <= gid < CorrectedGlobalSize(top, batches, groupCount).z {
      var (b, g) := BatchAndGroup(gid, groupCount);
      SplitIndex(b, g, groupCount, batches);
    }
  }
}
