/** The tile (replicate) layer of src/caffe/layers/tile_layer.cpp: `Reshape`
    fixes the axis, the number of tiles and the outer and inner block sizes;
    `Forward_cpu` copies every inner block of the input `tiles` times into
    the output. */
module TileLayer {
  import opened Arith
  import opened Wrappers

  /** Why `Reshape` stops: the axis lies outside the input's axes, the
      number of tiles is missing, or it is not positive. */
  datatype TileError = AxisOutOfRange | TilesUnspecified | TilesNotPositive

  /** Caffe's canonical axis index: an axis in `[-numAxes, numAxes)`, a
      negative one counting from the last axis. */
  function CanonicalAxisIndex(axis: int, numAxes: int): (r: Result<int, TileError>)
    ensures r.Success? <==> -numAxes <= axis < numAxes
    ensures r.Success? ==> 0 <= r.value < numAxes && (r.value == axis || r.value == axis + numAxes)
  {
    if axis < -numAxes || axis >= numAxes then Failure(AxisOutOfRange)
    else if axis < 0 then Success(axis + numAxes)
    else Success(axis)
  }

  /** Index of element `j` of block `q` when blocks of `inner` elements lie
      one after the other. */
  function BlockIndex(q: int, j: int, inner: int): int
  {
    q * inner + j
  }

  /** Index of element `j` of copy `t` of input block `i` in the output. */
  function TileIndex(i: int, t: int, j: int, tiles: int, inner: int): int
  {
    (i * tiles + t) * inner + j
  }

  /** `caffe_copy`: the `count` elements of `src` from `srcPos` on are
      copied to `dst` from `dstPos` on; nothing else in `dst` changes. */
  method CopyBlock<T>(src: array<T>, srcPos: int, dst: array<T>, dstPos: int, count: int)
    requires src != dst && count >= 0
    requires 0 <= srcPos && srcPos + count <= src.Length && 0 <= dstPos && dstPos + count <= dst.Length
    modifies dst
    ensures dst[dstPos..dstPos + count] == src[srcPos..srcPos + count]
    ensures dst[..dstPos] == old(dst[..dstPos]) && dst[dstPos + count..] == old(dst[dstPos + count..])
  {
    forall k | 0 <= k < count {
      dst[dstPos + k] := src[srcPos + k];
    }
  }

  /** The first `q` output blocks hold their input block: output block `q'`
      is input block `q' / tiles`. */
  ghost predicate BlocksCopied<T>(top: seq<T>, bottom: seq<T>, q: int, tiles: int, inner: int)
    requires tiles > 0
  {
    forall q', j :: 0 <= q' < q && 0 <= j < inner ==>
      0 <= BlockIndex(q', j, inner) < |top| && 0 <= BlockIndex(q' / tiles, j, inner) < |bottom| &&
      top[BlockIndex(q', j, inner)] == bottom[BlockIndex(q' / tiles, j, inner)]
  }

  /** Copy `t` of input block `i` sits at output block `i * tiles + t`:
      element `j` of it is element `j` of input block `i`. */
  ghost predicate IsTiling<T>(top: seq<T>, bottom: seq<T>, outer: int, tiles: int, inner: int)
  {
    forall i, t, j :: 0 <= i < outer && 0 <= t < tiles && 0 <= j < inner ==>
      0 <= TileIndex(i, t, j, tiles, inner) < |top| && 0 <= BlockIndex(i, j, inner) < |bottom| &&
      top[TileIndex(i, t, j, tiles, inner)] == bottom[BlockIndex(i, j, inner)]
  }

  /** The layer's state after `Reshape`. */
  class Tile {
    var axis: int
    var tiles: int
    var outerDim: int
    var innerDim: int

    constructor()
      ensures axis == 0 && tiles == 0 && outerDim == 0 && innerDim == 0
    {
      axis, tiles, outerDim, innerDim := 0, 0, 0, 0;
    }

    /** A successful `Reshape` leaves a positive tile count and
        non-negative block sizes. */
    ghost predicate Valid()
      reads this
    {
      tiles > 0 && outerDim >= 0 && innerDim >= 0
    }

    /** The axis is made canonical first (and stored), then the tile count
        is checked and stored; on success the output shape is the input
        shape with the axis extent multiplied by the tile count, `outerDim`
        is the count of the axes before it and `innerDim` the count from it
        to the end. */
    method Reshape(bottomShape: seq<int>, axisParam: int, hasTiles: bool, tilesParam: int)
      returns (r: Result<seq<int>, TileError>)
      requires AllNonNegative(bottomShape)
      modifies this
      ensures CanonicalAxisIndex(axisParam, |bottomShape|).Failure? ==>
        r == Failure(AxisOutOfRange) && unchanged(this)
      ensures CanonicalAxisIndex(axisParam, |bottomShape|).Success? ==>
        var a := CanonicalAxisIndex(axisParam, |bottomShape|).value;
        && axis == a
        && (!hasTiles ==> r == Failure(TilesUnspecified) && tiles == old(tiles)
                          && outerDim == old(outerDim) && innerDim == old(innerDim))
        && (hasTiles ==> tiles == tilesParam)
        && (hasTiles && tilesParam <= 0 ==> r == Failure(TilesNotPositive)
                                            && outerDim == old(outerDim) && innerDim == old(innerDim))
        && (hasTiles && tilesParam > 0 ==>
              && r == Success(bottomShape[a := bottomShape[a] * tilesParam])
              && outerDim == Prod(bottomShape[..a]) && innerDim == Prod(bottomShape[a..])
              && Valid())
    {
      var canonical := CanonicalAxisIndex(axisParam, |bottomShape|);
      if canonical.Failure? {
        return Failure(AxisOutOfRange);
      }
      axis := canonical.value;
      if !hasTiles {
        return Failure(TilesUnspecified);
      }
      tiles := tilesParam;
      if tiles <= 0 {
        return Failure(TilesNotPositive);
      }
      var topShape := bottomShape;
      topShape := topShape[axis := bottomShape[axis] * tiles];
      outerDim := Prod(bottomShape[..axis]);
      innerDim := Prod(bottomShape[axis..]);
      ProdNonNegative(bottomShape[..axis]);
      ProdNonNegative(bottomShape[axis..]);
      r := Success(topShape);
    }

    /** The replicate copy: for each of the `outerDim` input blocks, copy
        it `tiles` times one after the other into the output, advancing the
        output position by `innerDim` per copy and the input position by
        `innerDim` per block. Output block `i * tiles + t` then holds input
        block `i`; with one tile the output is a copy of the input. Only
        `top` is written. */
    method Forward<T>(bottom: array<T>, top: array<T>)
      requires Valid() && top != bottom
      requires bottom.Length == outerDim * innerDim && top.Length == outerDim * tiles * innerDim
      modifies top
      ensures IsTiling(top[..], bottom[..], outerDim, tiles, innerDim)
      ensures tiles == 1 ==> top[..] == bottom[..]
    {
      var outer, n, inner := outerDim, tiles, innerDim;
      var bottomPos := 0;
      var topPos := 0;
      var i := 0;
      while i < outer
        invariant 0 <= i <= outer && bottomPos == i * inner && topPos == i * n * inner
        invariant BlocksCopied(top[..], bottom[..], i * n, n, inner)
      {
        topPos := ReplicateBlock(bottom, top, i, bottomPos, topPos, outer, n, inner);
        assert (i + 1) * inner == i * inner + inner;
        bottomPos := bottomPos + inner;
        i := i + 1;
      }
      TilingComplete(top[..], bottom[..], outer, n, inner);
    }
  }

  /** One pass of the outer loop of `Tile.Forward`: input block `i`, which
      starts at `bottomPos`, is copied `tiles` times into output blocks
      `i * tiles` to `i * tiles + tiles - 1`, starting at `topStart`. */
  method ReplicateBlock<T>(bottom: array<T>, top: array<T>, i: int, bottomPos: int, topStart: int,
                           outer: int, tiles: int, inner: int)
    returns (topPos: int)
    requires top != bottom && tiles > 0 && inner >= 0 && 0 <= i < outer
    requires bottomPos == i * inner && topStart == i * tiles * inner
    requires bottom.Length == outer * inner && top.Length == outer * tiles * inner
    requires BlocksCopied(top[..], bottom[..], i * tiles, tiles, inner)
    modifies top
    ensures BlocksCopied(top[..], bottom[..], (i + 1) * tiles, tiles, inner)
    ensures topPos == (i + 1) * tiles * inner
  {
    topPos := topStart;
    var t := 0;
    while t < tiles
      invariant 0 <= t <= tiles && topPos == (i * tiles + t) * inner
      invariant BlocksCopied(top[..], bottom[..], i * tiles + t, tiles, inner)
    {
      CopyTile(bottom, top, i, t, bottomPos, topPos, outer, tiles, inner);
      assert (i * tiles + t + 1) * inner == (i * tiles + t) * inner + inner;
      topPos := topPos + inner;
      t := t + 1;
    }
    assert (i + 1) * tiles == i * tiles + tiles;
  }

  /** One `caffe_copy` of the inner loop of `Tile.Forward`: input block
      `i` becomes output block `i * tiles + t`. */
  method CopyTile<T>(bottom: array<T>, top: array<T>, i: int, t: int, bottomPos: int, topPos: int,
                     outer: int, tiles: int, inner: int)
    requires top != bottom && inner >= 0 && 0 <= i < outer && 0 <= t < tiles
    requires bottomPos == i * inner && topPos == (i * tiles + t) * inner
    requires bottom.Length == outer * inner && top.Length == outer * tiles * inner
    requires BlocksCopied(top[..], bottom[..], i * tiles + t, tiles, inner)
    modifies top
    ensures BlocksCopied(top[..], bottom[..], i * tiles + t + 1, tiles, inner)
  {
    CopyStepInRange(i, t, outer, tiles, inner);
    SplitIndex(i, t, tiles, i + 1);
    ghost var before := top[..];
    CopyBlock(bottom, bottomPos, top, topPos, inner);
    CopyStep(before, top[..], bottom[..], i * tiles + t, i, tiles, inner);
  }

  /** When the copy loops finish, every output block holds its input
      block, and with one tile the output equals the input. */
  lemma TilingComplete<T>(top: seq<T>, bottom: seq<T>, outer: int, tiles: int, inner: int)
    requires tiles > 0 && inner >= 0 && |top| == outer * tiles * inner && |bottom| == outer * inner
    requires BlocksCopied(top, bottom, outer * tiles, tiles, inner)
    ensures IsTiling(top, bottom, outer, tiles, inner)
    ensures tiles == 1 ==> top == bottom
  {
    CopiedBlocksAreTiles(top, bottom, outer, tiles, inner);
    if tiles == 1 {
      assert outer * tiles == outer;
      OneTileIsCopy(top, bottom, outer, inner);
    }
  }

  /** Once all `outer * tiles` output blocks are copied, copy `t` of input
      block `i` is output block `i * tiles + t`. */
  lemma CopiedBlocksAreTiles<T>(top: seq<T>, bottom: seq<T>, outer: int, tiles: int, inner: int)
    requires tiles > 0 && BlocksCopied(top, bottom, outer * tiles, tiles, inner)
    ensures IsTiling(top, bottom, outer, tiles, inner)
  {
    forall i, t, j | 0 <= i < outer && 0 <= t < tiles && 0 <= j < inner
      ensures 0 <= TileIndex(i, t, j, tiles, inner) < |top| && 0 <= BlockIndex(i, j, inner) < |bottom|
      ensures top[TileIndex(i, t, j, tiles, inner)] == bottom[BlockIndex(i, j, inner)]
    {
      SplitIndex(i, t, tiles, outer);
      assert TileIndex(i, t, j, tiles, inner) == BlockIndex(i * tiles + t, j, inner);
    }
  }

  /** With one tile, a fully copied output equals the input. */
  lemma OneTileIsCopy<T>(top: seq<T>, bottom: seq<T>, outer: int, inner: int)
    requires |top| == |bottom| == outer * inner && inner >= 0
    requires BlocksCopied(top, bottom, outer * 1, 1, inner)
    ensures top == bottom
  {
    forall x | 0 <= x < |top|
      ensures top[x] == bottom[x]
    {
      JoinIndex(x, inner, outer);
      assert BlockIndex(x / inner, x % inner, inner) == x;
      assert (x / inner) / 1 == x / inner;
    }
  }

  /** The block copied in step (i, t) lies inside both buffers. */
  lemma CopyStepInRange(i: int, t: int, outer: int, tiles: int, inner: int)
    requires 0 <= i < outer && 0 <= t < tiles && inner >= 0
    ensures 0 <= (i * tiles + t) * inner && (i * tiles + t) * inner + inner <= outer * tiles * inner
    ensures 0 <= i * inner && i * inner + inner <= outer * inner
  {
    SplitIndex(i, t, tiles, outer);
    MulLeft(i * tiles + t, 0, inner);
    MulLeft(outer * tiles - 1, i * tiles + t, inner);
    MulLeft(i, 0, inner);
    MulLeft(outer - 1, i, inner);
  }

  /** Copying input block `src = q / tiles` to output block `q` extends the
      copied prefix by one block and keeps the earlier blocks. */
  lemma CopyStep<T>(before: seq<T>, after: seq<T>, bottom: seq<T>, q: int, src: int, tiles: int, inner: int)
    requires q >= 0 && tiles > 0 && inner >= 0 && src == q / tiles && |after| == |before|
    requires 0 <= q * inner && q * inner + inner <= |before| && 0 <= src * inner && src * inner + inner <= |bottom|
    requires BlocksCopied(before, bottom, q, tiles, inner)
    requires after[q * inner..q * inner + inner] == bottom[src * inner..src * inner + inner]
    requires after[..q * inner] == before[..q * inner]
    ensures BlocksCopied(after, bottom, q + 1, tiles, inner)
  {
    EarlierBlocksKept(before, after, bottom, q, tiles, inner);
    forall j | 0 <= j < inner
      ensures 0 <= BlockIndex(q, j, inner) < |after| && 0 <= BlockIndex(q / tiles, j, inner) < |bottom|
      ensures after[BlockIndex(q, j, inner)] == bottom[BlockIndex(q / tiles, j, inner)]
    {
      assert after[q * inner + j] == after[q * inner..q * inner + inner][j];
      assert bottom[src * inner + j] == bottom[src * inner..src * inner + inner][j];
    }
  }

  /** Blocks before `q` lie before position `q * inner`, so an output that
      agrees with `before` there keeps them copied. */
  lemma EarlierBlocksKept<T>(before: seq<T>, after: seq<T>, bottom: seq<T>, q: int, tiles: int, inner: int)
    requires q >= 0 && tiles > 0 && inner >= 0 && |after| == |before| && 0 <= q * inner <= |before|
    requires BlocksCopied(before, bottom, q, tiles, inner)
    requires after[..q * inner] == before[..q * inner]
    ensures BlocksCopied(after, bottom, q, tiles, inner)
  {
    forall q', j | 0 <= q' < q && 0 <= j < inner
      ensures 0 <= BlockIndex(q', j, inner) < |after| && 0 <= BlockIndex(q' / tiles, j, inner) < |bottom|
      ensures after[BlockIndex(q', j, inner)] == bottom[BlockIndex(q' / tiles, j, inner)]
    {
      MulLeft(q - 1, q', inner);
      assert after[BlockIndex(q', j, inner)] == after[..q * inner][BlockIndex(q', j, inner)];
    }
  }

  /** Every output index of a tile layer is element `j` of copy `t` of
      input block `i` for exactly one (i, t, j): the copy writes every
      output element, and only once. */
  lemma OutputIndexOwner(x: int, outer: int, tiles: int, inner: int)
    requires tiles > 0 && inner > 0 && 0 <= x < outer * tiles * inner
    ensures var q := x / inner;
      && 0 <= q / tiles < outer && 0 <= q % tiles < tiles && 0 <= x % inner < inner
      && TileIndex(q / tiles, q % tiles, x % inner, tiles, inner) == x
    ensures forall i, t, j :: 0 <= t < tiles && 0 <= j < inner && TileIndex(i, t, j, tiles, inner) == x ==>
      i == (x / inner) / tiles && t == (x / inner) % tiles && j == x % inner
  {
    JoinIndex(x, inner, outer * tiles);
    JoinIndex(x / inner, tiles, outer);
    forall i, t, j | 0 <= t < tiles && 0 <= j < inner && TileIndex(i, t, j, tiles, inner) == x
      ensures i == (x / inner) / tiles && t == (x / inner) % tiles && j == x % inner
    {
      SplitIndex(i * tiles + t, j, inner, outer * tiles);
      SplitIndex(i, t, tiles, outer);
    }
  }

  /** The output holds `tiles` times as many elements as the input. */
  lemma TopCount(bottomShape: seq<int>, a: int, tiles: int)
    requires 0 <= a < |bottomShape|
    ensures Prod(bottomShape[a := bottomShape[a] * tiles]) == tiles * Prod(bottomShape)
  {
    ProdScaleAt(bottomShape, a, tiles);
  }

  /** The outer and inner block sizes multiply to the input count. */
  lemma OuterTimesInner(bottomShape: seq<int>, a: int)
    requires 0 <= a <= |bottomShape|
    ensures Prod(bottomShape[..a]) * Prod(bottomShape[a..]) == Prod(bottomShape)
  {
    assert bottomShape[..a] + bottomShape[a..] == bottomShape;
    ProdAppend(bottomShape[..a], bottomShape[a..]);
  }
}
