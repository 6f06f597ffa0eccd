/** The integer index arithmetic of the forward kernel that
    `generate_fw_kernels` in src/caffe/layers/conv_layer.cpp writes out as
    text: the tiling constants, the thread-to-cell maps of the two
    local-memory tile loads, the implicit im2col gather with its range
    check and zero-pad fast path, and the guarded store of the results. */
module ConvKernel {
  import opened Arith
  import opened MixedRadix
  import opened Wrappers
  import ConvLayer

  // ---------------------------------------------------------------------
  // Tiling constants, as the generator computes them

  const WPTN: int := 4
  const WPTM: int := 4
  const TSK: int := 8
  const RTSN: int := 16
  const RTSM: int := 16
  const TSM: int := WPTM * RTSM
  const TSN: int := WPTN * RTSN
  const VWM: int := 4
  const VWN: int := 4
  const LPTA: int := (TSM * TSK) / (RTSM * RTSN)
  const LPTB: int := (TSN * TSK) / (RTSM * RTSN)
  /** Work items in one work-group. */
  const THREADS: int := RTSM * RTSN

  /** The integer a table binds to a plain name, if it binds an integer. */
  function TableInt(defs: seq<ConvLayer.Def>, id: ConvLayer.Macro): Option<int>
  {
    match ConvLayer.Lookup(defs, ConvLayer.Named(id))
    case Some(Int(v)) => Some(v)
    case _ => None
  }

  /** The integer literals of the definition table agree with the constants
      the generator computes, the three derived sizes are the expressions
      the generator writes, and every tile is an exact multiple of the
      work-group. */
  lemma TableMatchesGenerator(fin: int, fout: int, group: int, inSpatial: seq<int>, outSpatial: seq<int>,
                              kernel: seq<int>, pad: seq<int>, stride: seq<int>, dilation: seq<int>)
    requires group > 0 && |inSpatial| == |outSpatial|
    ensures var t := ConvLayer.FwDefs(fin, fout, group, inSpatial, outSpatial, kernel, pad, stride, dilation);
      && TableInt(t, ConvLayer.TSM) == Some(TSM) && TableInt(t, ConvLayer.TSN) == Some(TSN) && TableInt(t, ConvLayer.TSK) == Some(TSK)
      && TableInt(t, ConvLayer.WPTM) == Some(WPTM) && TableInt(t, ConvLayer.WPTN) == Some(WPTN)
      && TableInt(t, ConvLayer.RTSM) == Some(RTSM) && TableInt(t, ConvLayer.RTSN) == Some(RTSN)
      && TableInt(t, ConvLayer.VWM) == Some(VWM) && TableInt(t, ConvLayer.VWN) == Some(VWN)
      && ConvLayer.Lookup(t, ConvLayer.Named(ConvLayer.LPTA)) == Some(ConvLayer.Formula(ConvLayer.LptaExpr))
      && ConvLayer.Lookup(t, ConvLayer.Named(ConvLayer.LPTB)) == Some(ConvLayer.Formula(ConvLayer.LptbExpr))
      && ConvLayer.Lookup(t, ConvLayer.Named(ConvLayer.NumTiles)) == Some(ConvLayer.Formula(ConvLayer.NumTilesExpr))
    ensures TSM == WPTM * RTSM == 64 && TSN == WPTN * RTSN == 64
    ensures LPTA * THREADS == TSK * TSM && LPTB * THREADS == TSK * TSN
  {
    ConvLayer.FwDefsTiling(fin, fout, group, inSpatial, outSpatial, kernel, pad, stride, dilation);
    TilingBlockBindings(ConvLayer.FwDefs(fin, fout, group, inSpatial, outSpatial, kernel, pad, stride, dilation));
  }

  /** Any table that binds every tiling name as the tiling block does binds
      the generator's constants and the three derived-size expressions. */
  lemma TilingBlockBindings(t: seq<ConvLayer.Def>)
    requires forall j :: 0 <= j < |ConvLayer.TilingDefs| ==>
      ConvLayer.Lookup(t, ConvLayer.TilingDefs[j].name) == Some(ConvLayer.TilingDefs[j].value)
    ensures && TableInt(t, ConvLayer.TSM) == Some(TSM) && TableInt(t, ConvLayer.TSN) == Some(TSN) && TableInt(t, ConvLayer.TSK) == Some(TSK)
      && TableInt(t, ConvLayer.WPTM) == Some(WPTM) && TableInt(t, ConvLayer.WPTN) == Some(WPTN)
      && TableInt(t, ConvLayer.RTSM) == Some(RTSM) && TableInt(t, ConvLayer.RTSN) == Some(RTSN)
      && TableInt(t, ConvLayer.VWM) == Some(VWM) && TableInt(t, ConvLayer.VWN) == Some(VWN)
      && ConvLayer.Lookup(t, ConvLayer.Named(ConvLayer.LPTA)) == Some(ConvLayer.Formula(ConvLayer.LptaExpr))
      && ConvLayer.Lookup(t, ConvLayer.Named(ConvLayer.LPTB)) == Some(ConvLayer.Formula(ConvLayer.LptbExpr))
      && ConvLayer.Lookup(t, ConvLayer.Named(ConvLayer.NumTiles)) == Some(ConvLayer.Formula(ConvLayer.NumTilesExpr))
  {
    var tiling := ConvLayer.TilingDefs;
    assert tiling[2].name == ConvLayer.Named(ConvLayer.TSM) && tiling[3].name == ConvLayer.Named(ConvLayer.TSN);
    assert tiling[4].name == ConvLayer.Named(ConvLayer.TSK) && tiling[6].name == ConvLayer.Named(ConvLayer.WPTM);
    assert tiling[7].name == ConvLayer.Named(ConvLayer.VWM) && tiling[8].name == ConvLayer.Named(ConvLayer.WPTN);
    assert tiling[9].name == ConvLayer.Named(ConvLayer.VWN) && tiling[10].name == ConvLayer.Named(ConvLayer.RTSM);
    assert tiling[11].name == ConvLayer.Named(ConvLayer.RTSN) && tiling[12].name == ConvLayer.Named(ConvLayer.LPTA);
    assert tiling[13].name == ConvLayer.Named(ConvLayer.LPTB) && tiling[14].name == ConvLayer.Named(ConvLayer.NumTiles);
  }

  /** The derived sizes, folded as the kernel compiler folds them: the
      loads-per-thread expressions give the generator's `LPTA` and `LPTB`,
      and the tile-count expression gives `NumTiles(K)` for the table's
      `K`. */
  lemma TableFormulasEvaluate(fin: int, fout: int, group: int, inSpatial: seq<int>, outSpatial: seq<int>,
                              kernel: seq<int>, pad: seq<int>, stride: seq<int>, dilation: seq<int>)
    requires group > 0 && |inSpatial| == |outSpatial|
    ensures var t := ConvLayer.FwDefs(fin, fout, group, inSpatial, outSpatial, kernel, pad, stride, dilation);
      && ConvLayer.Eval(ConvLayer.LptaExpr, t) == Some(LPTA)
      && ConvLayer.Eval(ConvLayer.LptbExpr, t) == Some(LPTB)
      && ConvLayer.Eval(ConvLayer.NumTilesExpr, t) == Some(NumTiles(TruncDiv(fin, group) * Prod(kernel)))
  {
    var t := ConvLayer.FwDefs(fin, fout, group, inSpatial, outSpatial, kernel, pad, stride, dilation);
    TableMatchesGenerator(fin, fout, group, inSpatial, outSpatial, kernel, pad, stride, dilation);
    ConvLayer.FwDefsSizes(fin, fout, group, inSpatial, outSpatial, kernel, pad, stride, dilation);
    FormulasFold(t, TruncDiv(fin, group) * Prod(kernel));
  }

  /** Folding the derived-size expressions over any table that binds the
      tiling constants as the generator does and `K` to `k`. */
  lemma FormulasFold(t: seq<ConvLayer.Def>, k: int)
    requires TableInt(t, ConvLayer.TSK) == Some(TSK) && TableInt(t, ConvLayer.TSM) == Some(TSM)
    requires TableInt(t, ConvLayer.TSN) == Some(TSN)
    requires TableInt(t, ConvLayer.RTSM) == Some(RTSM) && TableInt(t, ConvLayer.RTSN) == Some(RTSN)
    requires ConvLayer.Lookup(t, ConvLayer.Named(ConvLayer.K)) == Some(ConvLayer.Int(k))
    ensures ConvLayer.Eval(ConvLayer.LptaExpr, t) == Some(LPTA)
    ensures ConvLayer.Eval(ConvLayer.LptbExpr, t) == Some(LPTB)
    ensures ConvLayer.Eval(ConvLayer.NumTilesExpr, t) == Some(NumTiles(k))
  {
    var threads := ConvLayer.Mul(ConvLayer.Ref(ConvLayer.RTSM), ConvLayer.Ref(ConvLayer.RTSN));
    assert ConvLayer.Eval(threads, t) == Some(THREADS);
    assert ConvLayer.Eval(ConvLayer.Mul(ConvLayer.Ref(ConvLayer.TSK), ConvLayer.Ref(ConvLayer.TSM)), t) == Some(TSK * TSM);
    assert ConvLayer.Eval(ConvLayer.Mul(ConvLayer.Ref(ConvLayer.TSK), ConvLayer.Ref(ConvLayer.TSN)), t) == Some(TSK * TSN);
    TruncDivNonNegative(TSK * TSM, THREADS);
    var depth := ConvLayer.Mul(ConvLayer.Ref(ConvLayer.TSK), ConvLayer.Lit(2));
    assert ConvLayer.Eval(depth, t) == Some(TSK * 2);
    var below := ConvLayer.Sub(ConvLayer.Ref(ConvLayer.K), ConvLayer.Lit(1));
    assert ConvLayer.Eval(below, t) == Some(k - 1);
    assert ConvLayer.Eval(ConvLayer.Div(below, depth), t) == Some(TruncDiv(k - 1, TSK * 2));
  }

  // ---------------------------------------------------------------------
  // The K-tile loop

  /** `v_num_tiles` as the kernel compiler evaluates it, with C division:
      for any reduction length, including 0, an even number of at least two
      tiles (the loop body handles tiles in pairs). */
  function NumTiles(k: int): (r: int)
    ensures k >= 0 ==> r >= 2 && r % 2 == 0
  {
    TruncDivSign(k - 1, TSK * 2);
    (TruncDiv(k - 1, TSK * 2) + 1) * 2
  }

  /** The tile count is even, its tiles cover all `k` columns of the
      reduction, and dropping one pair of tiles would not cover them. */
  lemma NumTilesCoversK(k: int)
    requires k >= 0
    ensures NumTiles(k) % 2 == 0 && NumTiles(k) >= 2
    ensures NumTiles(k) * TSK >= k
    ensures k >= 1 ==> (NumTiles(k) - 2) * TSK < k
  {
    var q := TruncDiv(k - 1, TSK * 2);
    TruncDivSign(k - 1, TSK * 2);
    if k >= 1 {
      assert 0 <= (k - 1) - q * 16 < 16;
    }
  }

  /** Within tile `t`, column `col` of the K dimension is `TSK * t + col`:
      that index falls below `NumTiles(k) * TSK` exactly when `t` is one of
      the tiles of the loop, and it determines `t` and `col`. */
  lemma KTileIndex(t: int, col: int, k: int)
    requires 0 <= col < TSK
    ensures (TSK * t + col) / TSK == t && (TSK * t + col) % TSK == col
    ensures 0 <= t < NumTiles(k) <==> 0 <= TSK * t + col < NumTiles(k) * TSK
  {
    SplitIndex(t, col, TSK, NumTiles(k));
  }

  /** Every reduction index below `NumTiles(k) * TSK` is column `x % TSK`
      of tile `x / TSK`, one of the tiles of the loop. */
  lemma KTileOwner(x: int, k: int)
    requires 0 <= x < NumTiles(k) * TSK
    ensures 0 <= x / TSK < NumTiles(k) && TSK * (x / TSK) + x % TSK == x
  {
    JoinIndex(x, TSK, NumTiles(k));
  }

  // ---------------------------------------------------------------------
  // Thread-to-cell maps of the tile loads

  /** The local id `tid = tidm * RTSN + tidn` of a work item. */
  function ThreadId(tidm: int, tidn: int): int
  {
    tidm * RTSN + tidn
  }

  /** Local ids number the RTSM x RTSN work items one-to-one. */
  lemma ThreadIdBijective(tidm: int, tidn: int)
    requires 0 <= tidm < RTSM && 0 <= tidn < RTSN
    ensures 0 <= ThreadId(tidm, tidn) < THREADS
    ensures ThreadId(tidm, tidn) / RTSN == tidm && ThreadId(tidm, tidn) % RTSN == tidn
  {
    SplitIndex(tidm, tidn, RTSN, RTSM);
  }

  /** The cell a work item fills in load round `round`: the flat id
      `round * RTSN * RTSM + tid` split into (row, column) of a tile
      `width` cells wide. */
  function LoadCell(round: int, tid: int, width: int): (int, int)
    requires width > 0
  {
    var id := round * RTSN * RTSM + tid;
    (id / width, id % width)
  }

  /** The (round, local id) that fills cell (row, col): the inverse map. */
  function CellLoader(row: int, col: int, width: int): (int, int)
  {
    var id := row * width + col;
    (id / THREADS, id % THREADS)
  }

  /** For a tile of `height` x `width` cells loaded in `rounds` rounds, with
      `rounds * THREADS == height * width`, the load map sends every
      (round, local id) to a cell of the tile and back again. */
  lemma LoadCellRoundTrip(round: int, tid: int, width: int, height: int, rounds: int)
    requires width > 0 && rounds * THREADS == height * width
    requires 0 <= round < rounds && 0 <= tid < THREADS
    ensures 0 <= LoadCell(round, tid, width).0 < height && 0 <= LoadCell(round, tid, width).1 < width
    ensures CellLoader(LoadCell(round, tid, width).0, LoadCell(round, tid, width).1, width) == (round, tid)
  {
    var id := round * RTSN * RTSM + tid;
    assert id == round * THREADS + tid;
    SplitIndex(round, tid, THREADS, rounds);
    JoinIndex(id, width, height);
  }

  /** ... and every cell of the tile to a (round, local id) and back again. */
  lemma CellLoaderRoundTrip(row: int, col: int, width: int, height: int, rounds: int)
    requires width > 0 && rounds * THREADS == height * width
    requires 0 <= row < height && 0 <= col < width
    ensures 0 <= CellLoader(row, col, width).0 < rounds && 0 <= CellLoader(row, col, width).1 < THREADS
    ensures LoadCell(CellLoader(row, col, width).0, CellLoader(row, col, width).1, width) == (row, col)
  {
    var id := row * width + col;
    SplitIndex(row, col, width, height);
    JoinIndex(id, THREADS, rounds);
    assert CellLoader(row, col, width).0 * RTSN * RTSM + CellLoader(row, col, width).1 == id;
  }

  /** The A load: `LPTA` rounds of all work items fill each cell of the
      TSM x TSK tile `Asub` exactly once, with `(row, col) = (id / TSK, id % TSK)`. */
  lemma ATileLoadExact()
    ensures forall round, tid :: 0 <= round < LPTA && 0 <= tid < THREADS ==>
      0 <= LoadCell(round, tid, TSK).0 < TSM && 0 <= LoadCell(round, tid, TSK).1 < TSK &&
      CellLoader(LoadCell(round, tid, TSK).0, LoadCell(round, tid, TSK).1, TSK) == (round, tid)
    ensures forall row, col :: 0 <= row < TSM && 0 <= col < TSK ==>
      0 <= CellLoader(row, col, TSK).0 < LPTA && 0 <= CellLoader(row, col, TSK).1 < THREADS &&
      LoadCell(CellLoader(row, col, TSK).0, CellLoader(row, col, TSK).1, TSK) == (row, col)
  {
    forall round, tid | 0 <= round < LPTA && 0 <= tid < THREADS
      ensures 0 <= LoadCell(round, tid, TSK).0 < TSM && 0 <= LoadCell(round, tid, TSK).1 < TSK &&
        CellLoader(LoadCell(round, tid, TSK).0, LoadCell(round, tid, TSK).1, TSK) == (round, tid)
    {
      LoadCellRoundTrip(round, tid, TSK, TSM, LPTA);
    }
    forall row, col | 0 <= row < TSM && 0 <= col < TSK
      ensures 0 <= CellLoader(row, col, TSK).0 < LPTA && 0 <= CellLoader(row, col, TSK).1 < THREADS &&
        LoadCell(CellLoader(row, col, TSK).0, CellLoader(row, col, TSK).1, TSK) == (row, col)
    {
      CellLoaderRoundTrip(row, col, TSK, TSM, LPTA);
    }
  }

  /** The B load: `LPTB` rounds fill each cell of the TSK x TSN tile `Bsub`
      exactly once, with `(row, col) = (id / TSN, id % TSN)`. */
  lemma BTileLoadExact()
    ensures forall round, tid :: 0 <= round < LPTB && 0 <= tid < THREADS ==>
      0 <= LoadCell(round, tid, TSN).0 < TSK && 0 <= LoadCell(round, tid, TSN).1 < TSN &&
      CellLoader(LoadCell(round, tid, TSN).0, LoadCell(round, tid, TSN).1, TSN) == (round, tid)
    ensures forall row, col :: 0 <= row < TSK && 0 <= col < TSN ==>
      0 <= CellLoader(row, col, TSN).0 < LPTB && 0 <= CellLoader(row, col, TSN).1 < THREADS &&
      LoadCell(CellLoader(row, col, TSN).0, CellLoader(row, col, TSN).1, TSN) == (row, col)
  {
    forall round, tid | 0 <= round < LPTB && 0 <= tid < THREADS
      ensures 0 <= LoadCell(round, tid, TSN).0 < TSK && 0 <= LoadCell(round, tid, TSN).1 < TSN &&
        CellLoader(LoadCell(round, tid, TSN).0, LoadCell(round, tid, TSN).1, TSN) == (round, tid)
    {
      LoadCellRoundTrip(round, tid, TSN, TSK, LPTB);
    }
    forall row, col | 0 <= row < TSK && 0 <= col < TSN
      ensures 0 <= CellLoader(row, col, TSN).0 < LPTB && 0 <= CellLoader(row, col, TSN).1 < THREADS &&
        LoadCell(CellLoader(row, col, TSN).0, CellLoader(row, col, TSN).1, TSN) == (row, col)
    {
      CellLoaderRoundTrip(row, col, TSN, TSK, LPTB);
    }
  }

  // ---------------------------------------------------------------------
  // What a tile cell receives

  /** A cell of a local tile either receives zero or the element at
      `index` of the operand buffer (relative to the group's pointer). */
  datatype Load = Zero | Read(index: int)

  /** Cell (row, col) of `Asub` in tile `t`: the weight at row `offM + row`
      and column `TSK * t + col` of the row-major M x K matrix of the group,
      or zero outside that matrix. It reads exactly the cells inside the
      matrix, and a read index lies inside the group's `m * k` weights and
      determines that row and column. */
  function LoadA(offM: int, t: int, row: int, col: int, m: int, k: int): (l: Load)
    ensures l.Read? <==> offM + row < m && TSK * t + col < k
    ensures l.Read? && offM + row >= 0 && TSK * t + col >= 0 ==>
      0 <= l.index < m * k && l.index / k == offM + row && l.index % k == TSK * t + col
  {
    var tiledIndex := TSK * t + col;
    if offM + row < m && tiledIndex < k then
      if offM + row >= 0 && tiledIndex >= 0 then
        SplitIndex(offM + row, tiledIndex, k, m);
        Read((offM + row) * k + tiledIndex)
      else Read((offM + row) * k + tiledIndex)
    else Zero
  }

  // ---------------------------------------------------------------------
  // The implicit im2col gather

  /** The per-axis geometry the gather reads from the definition table:
      kernel `v_k_i`, stride `v_s_i`, pad `v_p_i`, dilation `v_d_i`, input
      extent `v_imsi_i` and output extent `v_imso_i`. */
  datatype Geometry = Geometry(kernel: seq<int>, stride: seq<int>, pad: seq<int>, dilation: seq<int>,
                               imsi: seq<int>, imso: seq<int>)

  /** One entry per axis in every field, and the divisors of the gather
      (kernel and output extents) positive. */
  ghost predicate ValidGeometry(g: Geometry)
  {
    && |g.stride| == |g.kernel| && |g.pad| == |g.kernel| && |g.dilation| == |g.kernel|
    && |g.imsi| == |g.kernel| && |g.imso| == |g.kernel|
    && AllPositive(g.kernel) && AllPositive(g.imso)
  }

  /** Input coordinate of every axis: output coordinate times stride, minus
      pad, plus kernel offset times dilation. */
  function InputCoords(koff: seq<int>, oc: seq<int>, g: Geometry): (h: seq<int>)
    requires |koff| == |oc| == |g.kernel| == |g.stride| == |g.pad| == |g.dilation|
    ensures |h| == |g.kernel|
  {
    seq(|g.kernel|, i requires 0 <= i < |g.kernel| => oc[i] * g.stride[i] - g.pad[i] + koff[i] * g.dilation[i])
  }

  /** Every coordinate lies inside the input extent of its axis. */
  predicate InRange(h: seq<int>, extents: seq<int>)
    requires |h| == |extents|
  {
    forall i :: 0 <= i < |h| ==> 0 <= h[i] < extents[i]
  }

  datatype Gathered = Gathered(offset: int, inRange: bool)

  /** What the gather computes for reduction index `kIndex` and output
      column `column`, in closed form: `kIndex` splits into the input
      channel and one kernel offset per axis, `column` into one output
      coordinate per axis, and the input coordinates recombine with the
      channel into a row-major offset into the input image. */
  function GatherSpec(kIndex: int, column: int, g: Geometry): (r: Gathered)
    requires kIndex >= 0 && column >= 0 && ValidGeometry(g)
    ensures r.inRange && AllPositive(g.imsi) ==>
      Prod(g.kernel) > 0 &&
      var channel := kIndex / Prod(g.kernel);
      channel * Prod(g.imsi) <= r.offset < (channel + 1) * Prod(g.imsi)
  {
    var kp := Peel(kIndex, g.kernel);
    var op := Peel(column, g.imso);
    var h := InputCoords(kp.digits, op.digits, g);
    var offset := Compose(kp.rest, h, g.imsi);
    PeelRest(kIndex, g.kernel);
    if InRange(h, g.imsi) && AllPositive(g.imsi) then
      ComposeBounds(kp.rest, h, g.imsi);
      Gathered(offset, true)
    else Gathered(offset, InRange(h, g.imsi))
  }

  /** The descending loop of the gather: from the last axis down, peel the
      reduction index by the kernel extents into kernel offsets times
      dilation (`d_iter`) and the column by the output extents into output
      coordinates times stride minus pad (`d_temp`); what is left of the
      reduction index is the input channel. The kernel text does both peels
      in one loop; they share no state, so here they run one after the
      other. */
  method PeelAxes(kIndex: int, column: int, g: Geometry) returns (dIter: seq<int>, dTemp: seq<int>, channel: int)
    requires kIndex >= 0 && column >= 0 && ValidGeometry(g)
    ensures var kp := Peel(kIndex, g.kernel); var op := Peel(column, g.imso);
      && |dIter| == |dTemp| == |g.kernel|
      && (forall j :: 0 <= j < |g.kernel| ==> dIter[j] == kp.digits[j] * g.dilation[j])
      && (forall j :: 0 <= j < |g.kernel| ==> dTemp[j] == op.digits[j] * g.stride[j] - g.pad[j])
      && channel == kp.rest
  {
    dIter, channel := PeelScaled(kIndex, g.kernel, g.dilation, seq(|g.kernel|, _ => 0));
    var imageIndex;
    dTemp, imageIndex := PeelScaled(column, g.imso, g.stride, g.pad);
  }

  /** One peel of the descending loop: for each axis from the last down,
      the digit `x % r[i]` scaled by `scale[i]` minus `shift[i]`, and `x`
      divided by `r[i]` for the next axis. */
  method PeelScaled(x: int, r: seq<int>, scale: seq<int>, shift: seq<int>) returns (d: seq<int>, rest: int)
    requires x >= 0 && AllPositive(r) && |scale| == |r| && |shift| == |r|
    ensures |d| == |r| && rest == Peel(x, r).rest
    ensures forall j :: 0 <= j < |r| ==> d[j] == Peel(x, r).digits[j] * scale[j] - shift[j]
  {
    var n := |r|;
    ghost var p := Peel(x, r);
    d := seq(n, _ => 0);
    var index := x;
    assert r[..n] == r && p.digits[..n] == p.digits;
    var i := n - 1;
    while i >= 0
      invariant -1 <= i < n && |d| == n && index >= 0
      invariant Peel(index, r[..i + 1]) == Split(p.digits[..i + 1], p.rest)
      invariant forall j :: i < j < n ==> d[j] == p.digits[j] * scale[j] - shift[j]
    {
      PeelLoopStep(index, r, p.digits, p.rest, i);
      d := d[i := (index % r[i]) * scale[i] - shift[i]];
      index := index / r[i];
      i := i - 1;
    }
    rest := index;
  }

  /** The ascending loop of the gather: from axis 0 up, recombine the input
      coordinates `d_temp[i] + d_iter[i]` onto the channel into a row-major
      input offset and, unless the check is skipped, conjoin the test that
      each coordinate lies in `[0, imsi_i)`. */
  method Recombine(channel: int, dIter: seq<int>, dTemp: seq<int>, imsi: seq<int>, skipRangeCheck: bool,
                   ghost h: seq<int>)
    returns (offset: int, inRange: bool)
    requires |dIter| == |dTemp| == |imsi| == |h|
    requires forall j :: 0 <= j < |h| ==> h[j] == dTemp[j] + dIter[j]
    ensures offset == Compose(channel, h, imsi)
    ensures !skipRangeCheck ==> inRange == InRange(h, imsi)
  {
    var n := |imsi|;
    offset := channel;
    inRange := true;
    var i := 0;
    while i < n
      invariant 0 <= i <= n
      invariant offset == Compose(channel, h[..i], imsi[..i])
      invariant !skipRangeCheck ==> (inRange <==> forall j :: 0 <= j < i ==> 0 <= h[j] < imsi[j])
    {
      var dIterIm := dTemp[i] + dIter[i];
      ComposePrefixStep(channel, h, imsi, i);
      offset := offset * imsi[i] + dIterIm;
      if !skipRangeCheck {
        inRange := inRange && dIterIm >= 0 && dIterIm < imsi[i];
      }
      i := i + 1;
    }
    assert h[..n] == h && imsi[..n] == imsi;
  }

  /** The gather the kernel text performs for one cell of `Bsub`: peel, then
      recombine; the cell is loaded when the range check is skipped or
      passes. */
  method Gather(kIndex: int, column: int, g: Geometry, skipRangeCheck: bool) returns (offset: int, load: bool)
    requires kIndex >= 0 && column >= 0 && ValidGeometry(g)
    ensures offset == GatherSpec(kIndex, column, g).offset
    ensures load == (skipRangeCheck || GatherSpec(kIndex, column, g).inRange)
  {
    var dIter, dTemp, channel := PeelAxes(kIndex, column, g);
    ghost var h := InputCoords(Peel(kIndex, g.kernel).digits, Peel(column, g.imso).digits, g);
    var inRange;
    offset, inRange := Recombine(channel, dIter, dTemp, g.imsi, skipRangeCheck, h);
    load := skipRangeCheck || inRange;
  }

  /** The channel the gather reads from: `kIndex / Prod(kernel)`. */
  lemma GatherChannel(kIndex: int, column: int, g: Geometry)
    requires kIndex >= 0 && column >= 0 && ValidGeometry(g)
    ensures Prod(g.kernel) > 0 && Peel(kIndex, g.kernel).rest == kIndex / Prod(g.kernel)
  {
    PeelRest(kIndex, g.kernel);
  }

  /** When the range check passes, the offset addresses exactly the input
      element at channel `kIndex / Prod(kernel)` and the input coordinates
      of the cell: peeling the offset by the input extents gives them back. */
  lemma GatherReadsInputElement(kIndex: int, column: int, g: Geometry)
    requires kIndex >= 0 && column >= 0 && ValidGeometry(g) && AllPositive(g.imsi)
    requires GatherSpec(kIndex, column, g).inRange
    ensures GatherSpec(kIndex, column, g).offset >= 0 && Prod(g.kernel) > 0
    ensures var kp := Peel(kIndex, g.kernel);
            var h := InputCoords(kp.digits, Peel(column, g.imso).digits, g);
      Peel(GatherSpec(kIndex, column, g).offset, g.imsi) == Split(h, kIndex / Prod(g.kernel))
  {
    var kp := Peel(kIndex, g.kernel);
    var h := InputCoords(kp.digits, Peel(column, g.imso).digits, g);
    PeelRest(kIndex, g.kernel);
    PeelCompose(kp.rest, h, g.imsi);
  }

  /** For a reduction index below `K = cpg * Prod(kernel)` (cpg input
      channels per group), a cell that passes the range check reads inside
      the group's `cpg * Prod(imsi)` input elements. */
  lemma GatherInGroupInput(kIndex: int, column: int, g: Geometry, cpg: int)
    requires kIndex >= 0 && column >= 0 && ValidGeometry(g) && AllPositive(g.imsi)
    requires kIndex < cpg * Prod(g.kernel)
    requires GatherSpec(kIndex, column, g).inRange
    ensures 0 <= GatherSpec(kIndex, column, g).offset < cpg * Prod(g.imsi)
  {
    var kp := Peel(kIndex, g.kernel);
    var h := InputCoords(kp.digits, Peel(column, g.imso).digits, g);
    PeelRest(kIndex, g.kernel);
    var c := kp.rest;
    // c = kIndex / Prod(kernel) < cpg
    assert c < cpg by {
      if c >= cpg {
        MulLeft(c, cpg, Prod(g.kernel));
        JoinIndex(kIndex, Prod(g.kernel), c + 1);
      }
    }
    ComposeBounds(c, h, g.imsi);
    ProdPositive(g.imsi);
    MulLeft(c, 0, Prod(g.imsi));
    MulLeft(cpg, c + 1, Prod(g.imsi));
  }

  /** Cell (row, col) of `Bsub` in tile `t`: zero outside the N x K matrix;
      inside it, the gathered input element when the range check passes or
      is skipped, zero otherwise. */
  function LoadB(t: int, row: int, col: int, offN: int, n: int, k: int, g: Geometry, skipRangeCheck: bool): (l: Load)
    requires t >= 0 && row >= 0 && col >= 0 && offN >= 0 && ValidGeometry(g)
    ensures l.Read? ==> offN + col < n && TSK * t + row < k
    ensures l.Read? && !skipRangeCheck && AllPositive(g.imsi) ==>
      Prod(g.kernel) > 0 &&
      var channel := (TSK * t + row) / Prod(g.kernel);
      channel * Prod(g.imsi) <= l.index < (channel + 1) * Prod(g.imsi)
  {
    var tiledIndex := TSK * t + row;
    if offN + col < n && tiledIndex < k then
      var gt := GatherSpec(tiledIndex, offN + col, g);
      if skipRangeCheck || gt.inRange then Read(gt.offset) else Zero
    else Zero
  }

  /** Along one axis with no padding, an output coordinate below the floor
      output extent and a kernel offset below the kernel size land inside
      the input extent. */
  lemma UnpaddedAxisInRange(oc: int, koff: int, input: int, kernel: int, stride: int, dilation: int)
    requires stride > 0 && dilation >= 0
    requires 0 <= oc < ConvLayer.FloorOutputDim(input, kernel, stride, 0, dilation)
    requires 0 <= koff < kernel
    ensures 0 <= oc * stride - 0 + koff * dilation < input
  {
    var o := ConvLayer.FloorOutputDim(input, kernel, stride, 0, dilation);
    MulLeft(o - 1, oc, stride);
    MulLeft(kernel - 1, koff, dilation);
    MulLeft(oc, 0, stride);
    MulLeft(koff, 0, dilation);
  }

  /** Zero-pad fast path: with every pad zero and every output extent the
      floor output extent of its axis, every gathered coordinate is already
      in range, so the load without the range check equals the checked one. */
  lemma FastPathMatchesCheckedLoad(t: int, row: int, col: int, offN: int, n: int, k: int, g: Geometry)
    requires t >= 0 && row >= 0 && col >= 0 && offN >= 0 && ValidGeometry(g)
    requires AllPositive(g.stride)
    requires forall i :: 0 <= i < |g.kernel| ==> g.pad[i] == 0 && g.dilation[i] >= 0
    requires forall i :: 0 <= i < |g.kernel| ==>
      g.imso[i] == ConvLayer.FloorOutputDim(g.imsi[i], g.kernel[i], g.stride[i], 0, g.dilation[i])
    ensures LoadB(t, row, col, offN, n, k, g, true) == LoadB(t, row, col, offN, n, k, g, false)
  {
    var tiledIndex := TSK * t + row;
    if offN + col < n && tiledIndex < k {
      var kp := Peel(tiledIndex, g.kernel);
      var op := Peel(offN + col, g.imso);
      var h := InputCoords(kp.digits, op.digits, g);
      forall i | 0 <= i < |h|
        ensures 0 <= h[i] < g.imsi[i]
      {
        UnpaddedAxisInRange(op.digits[i], kp.digits[i], g.imsi[i], g.kernel[i], g.stride[i], g.dilation[i]);
      }
    }
  }

  /** The layer's own (truncated) output extent equals the floor extent on
      every axis where the dilated kernel fits in the padded input, so the
      fast path is safe for such layers. */
  lemma FastPathSafeWhenKernelFits(t: int, row: int, col: int, offN: int, n: int, k: int, g: Geometry)
    requires t >= 0 && row >= 0 && col >= 0 && offN >= 0 && ValidGeometry(g)
    requires AllPositive(g.stride)
    requires forall i :: 0 <= i < |g.kernel| ==> g.pad[i] == 0 && g.dilation[i] >= 0
    requires forall i :: 0 <= i < |g.kernel| ==> ConvLayer.Room(g.imsi[i], g.kernel[i], 0, g.dilation[i]) >= 0
    requires forall i :: 0 <= i < |g.kernel| ==>
      g.imso[i] == ConvLayer.OutputDim(g.imsi[i], g.kernel[i], g.stride[i], 0, g.dilation[i])
    ensures LoadB(t, row, col, offN, n, k, g, true) == LoadB(t, row, col, offN, n, k, g, false)
  {
    forall i | 0 <= i < |g.kernel|
      ensures g.imso[i] == ConvLayer.FloorOutputDim(g.imsi[i], g.kernel[i], g.stride[i], 0, g.dilation[i])
    {
      ConvLayer.OutputDimMatchesFloor(g.imsi[i], g.kernel[i], g.stride[i], 0, g.dilation[i]);
    }
    FastPathMatchesCheckedLoad(t, row, col, offN, n, k, g);
  }

  /** One axis: input extent 2, kernel 3, stride 2, no pad, dilation 1,
      and the output extent 1 the layer computes for it
      (`ConvLayer.KernelOverhangExtent`). */
  const OverhangGeometry: Geometry := Geometry([3], [2], [0], [1], [2], [1])

  /** With the truncated output extent, the fast path reads outside the
      input: an input extent of 2, kernel 3, stride 2, no pad and dilation
      1 give the layer an output extent of 1 (the floor extent is 0, the
      kernel does not fit; see `ConvLayer.KernelOverhangExtent`). Reduction index 2 of output column 0 then
      gathers input coordinate 2: the checked load gives zero, the fast
      path reads offset 2, past the 2 elements of the single channel. */
  lemma TruncatedExtentBreaksFastPath()
    ensures ValidGeometry(OverhangGeometry)
    ensures LoadB(0, 2, 0, 0, 1, 3, OverhangGeometry, false) == Zero
    ensures LoadB(0, 2, 0, 0, 1, 3, OverhangGeometry, true) == Read(2)
    ensures Prod(OverhangGeometry.imsi) == 2
  {
    var g := OverhangGeometry;
    assert AllPositive(g.kernel) && AllPositive(g.imso);
    assert GatherSpec(2, 0, g) == Gathered(2, false) by {
      SingleAxis(2, 0, 2, 3);
      SingleAxis(0, 0, 2, 1);
      SingleAxis(0, 0, 2, 2);
      var h := InputCoords([2], [0], g);
      assert h == [2] by { assert h[0] == 2; }
      assert !InRange(h, g.imsi);
    }
    assert g.imsi[..0] == [];
  }

  // ---------------------------------------------------------------------
  // Storing the results

  /** The position a work item owns in one dimension of the output: work
      group `grp` owns a block of 64 (TSM or TSN) positions, and work item
      `tid` of it holds positions `tid + reg * 16` (reg < 4, WPTM or WPTN). */
  function OwnedPosition(grp: int, tid: int, reg: int): int
  {
    TSM * grp + tid + reg * RTSM
  }

  /** Every position in `[0, groups * 64)` is owned by exactly one
      (work-group, local id, register) triple: this one. */
  lemma PositionOwner(x: int, groups: int)
    requires 0 <= x < groups * TSM
    ensures 0 <= x / TSM < groups && 0 <= (x % TSM) % RTSM < RTSM && 0 <= (x % TSM) / RTSM < WPTM
    ensures OwnedPosition(x / TSM, (x % TSM) % RTSM, (x % TSM) / RTSM) == x
  {
    JoinIndex(x, TSM, groups);
    JoinIndex(x % TSM, RTSM, WPTM);
  }

  /** ... and the triple is recovered from the position it owns. */
  lemma OwnedPositionUnique(grp: int, tid: int, reg: int, groups: int)
    requires 0 <= tid < RTSM && 0 <= reg < WPTM
    ensures var x := OwnedPosition(grp, tid, reg);
      && x / TSM == grp && (x % TSM) % RTSM == tid && (x % TSM) / RTSM == reg
      && (0 <= grp < groups <==> 0 <= x < groups * TSM)
  {
    SplitIndex(reg, tid, RTSM, WPTM);
    SplitIndex(grp, tid + reg * RTSM, TSM, groups);
  }

  /** A work item: its work-group offsets `offM = TSM * group_id(1)` and
      `offN = TSN * group_id(0)` and its local ids. */
  datatype WorkItem = WorkItem(offM: int, offN: int, tidm: int, tidn: int)

  ghost predicate ValidItem(w: WorkItem)
  {
    w.offM >= 0 && w.offN >= 0 && 0 <= w.tidm < RTSM && 0 <= w.tidn < RTSN
  }

  function GlobalRow(w: WorkItem, wm: int): int
  {
    w.offM + w.tidm + wm * RTSM
  }

  function GlobalCol(w: WorkItem, wn: int): int
  {
    w.offN + w.tidn + wn * RTSN
  }

  /** The store guard: the element lies inside the M x N output matrix. */
  predicate Guarded(w: WorkItem, m: int, n: int, wm: int, wn: int)
  {
    GlobalRow(w, wm) < m && GlobalCol(w, wn) < n
  }

  /** Where the element (wm, wn) of a work item goes: row-major in the
      group's M x N output block starting at `cBase`. */
  function StoreIndex(w: WorkItem, cBase: int, n: int, wm: int, wn: int): int
  {
    cBase + GlobalRow(w, wm) * n + GlobalCol(w, wn)
  }

  /** The accumulator registers `Creg[WPTM][WPTN / VWN]`, each a vector of
      `VWN` lanes. */
  ghost predicate AccumulatorShape(creg: seq<seq<seq<int>>>)
  {
    |creg| == WPTM &&
    forall wm :: 0 <= wm < WPTM ==>
      |creg[wm]| == WPTN / VWN && forall v :: 0 <= v < WPTN / VWN ==> |creg[wm][v]| == VWN
  }

  /** Result element (wm, wn) sits in lane `wn % VWN` of vector `wn / VWN`. */
  function Accumulator(creg: seq<seq<seq<int>>>, wm: int, wn: int): int
    requires AccumulatorShape(creg) && 0 <= wm < WPTM && 0 <= wn < WPTN
  {
    creg[wm][wn / VWN][wn % VWN]
  }

  /** The lane map is a bijection between the WPTN results of a row and
      the (vector, lane) pairs of its registers. */
  lemma AccumulatorLanes(wn: int, v: int, lane: int)
    requires 0 <= v < WPTN / VWN && 0 <= lane < VWN
    ensures 0 <= wn < WPTN ==> 0 <= wn / VWN < WPTN / VWN && 0 <= wn % VWN < VWN
    ensures (v * VWN + lane) / VWN == v && (v * VWN + lane) % VWN == lane && 0 <= v * VWN + lane < WPTN
  {
    if 0 <= wn < WPTN {
      JoinIndex(wn, VWN, WPTN / VWN);
    }
    SplitIndex(v, lane, VWN, WPTN / VWN);
  }

  /** The value stored for element (wm, wn): the accumulated sum, plus the
      bias of its output row when the layer has a bias term. */
  function StoredValue(creg: seq<seq<seq<int>>>, bias: seq<int>, dBase: int, biasTerm: bool,
                       w: WorkItem, wm: int, wn: int): int
    requires AccumulatorShape(creg) && 0 <= wm < WPTM && 0 <= wn < WPTN
    requires biasTerm ==> 0 <= dBase + GlobalRow(w, wm) < |bias|
  {
    Accumulator(creg, wm, wn) + (if biasTerm then bias[dBase + GlobalRow(w, wm)] else 0)
  }

  /** Two guarded elements of one work item never share an output index. */
  lemma StoreIndexInjective(w: WorkItem, cBase: int, m: int, n: int, wm1: int, wn1: int, wm2: int, wn2: int)
    requires ValidItem(w) && 0 <= wm1 < WPTM && 0 <= wn1 < WPTN && 0 <= wm2 < WPTM && 0 <= wn2 < WPTN
    requires Guarded(w, m, n, wm1, wn1) && Guarded(w, m, n, wm2, wn2)
    ensures StoreIndex(w, cBase, n, wm1, wn1) == StoreIndex(w, cBase, n, wm2, wn2) <==> wm1 == wm2 && wn1 == wn2
  {
    if StoreIndex(w, cBase, n, wm1, wn1) == StoreIndex(w, cBase, n, wm2, wn2) {
      SplitIndex(GlobalRow(w, wm1), GlobalCol(w, wn1), n, m);
      SplitIndex(GlobalRow(w, wm2), GlobalCol(w, wn2), n, m);
    }
  }

  /** A guarded element lands inside the group's M x N block. */
  lemma StoreIndexInBlock(w: WorkItem, cBase: int, m: int, n: int, wm: int, wn: int)
    requires ValidItem(w) && 0 <= wm < WPTM && 0 <= wn < WPTN && Guarded(w, m, n, wm, wn)
    ensures cBase <= StoreIndex(w, cBase, n, wm, wn) < cBase + m * n
  {
    SplitIndex(GlobalRow(w, wm), GlobalCol(w, wn), n, m);
  }

  /** Output index `x` is written by one of the first `p` elements (in the
      order wm, then wn) that pass the guard. */
  ghost predicate WrittenBefore(x: int, w: WorkItem, cBase: int, m: int, n: int, p: int)
  {
    exists wm, wn :: 0 <= wm < WPTM && 0 <= wn < WPTN && wm * WPTN + wn < p &&
      Guarded(w, m, n, wm, wn) && StoreIndex(w, cBase, n, wm, wn) == x
  }

  /** The bias buffer holds the group's M entries from `dBase` on. */
  ghost predicate BiasCovers(bias: seq<int>, dBase: int, biasTerm: bool, m: int)
  {
    biasTerm ==> 0 <= dBase && dBase + m <= |bias|
  }

  /** Each of the first `p` elements that passes the guard holds its
      stored value in `c`. */
  ghost predicate StoredUpTo(c: seq<int>, cBase: int, w: WorkItem, creg: seq<seq<seq<int>>>,
                             bias: seq<int>, dBase: int, biasTerm: bool, m: int, n: int, p: int)
    requires ValidItem(w) && AccumulatorShape(creg) && BiasCovers(bias, dBase, biasTerm, m)
  {
    forall wm, wn :: 0 <= wm < WPTM && 0 <= wn < WPTN && wm * WPTN + wn < p && Guarded(w, m, n, wm, wn) ==>
      0 <= StoreIndex(w, cBase, n, wm, wn) < |c| &&
      c[StoreIndex(w, cBase, n, wm, wn)] == StoredValue(creg, bias, dBase, biasTerm, w, wm, wn)
  }

  /** `c` agrees with `c0` everywhere the first `p` elements do not write. */
  ghost predicate UnchangedElsewhere(c: seq<int>, c0: seq<int>, cBase: int, w: WorkItem, m: int, n: int, p: int)
  {
    |c| == |c0| && forall x :: 0 <= x < |c| && !WrittenBefore(x, w, cBase, m, n, p) ==> c[x] == c0[x]
  }

  /** The store with element (wm, wn) applied: written if it passes the
      guard, left alone otherwise. */
  function StoreElement(c: seq<int>, cBase: int, w: WorkItem, creg: seq<seq<seq<int>>>,
                        bias: seq<int>, dBase: int, biasTerm: bool, m: int, n: int, wm: int, wn: int): (c': seq<int>)
    requires ValidItem(w) && AccumulatorShape(creg) && BiasCovers(bias, dBase, biasTerm, m)
    requires 0 <= wm < WPTM && 0 <= wn < WPTN && 0 <= cBase && cBase + m * n <= |c|
    ensures |c'| == |c|
  {
    if Guarded(w, m, n, wm, wn) then
      StoreIndexInBlock(w, cBase, m, n, wm, wn);
      c[StoreIndex(w, cBase, n, wm, wn) := StoredValue(creg, bias, dBase, biasTerm, w, wm, wn)]
    else c
  }

  /** One step of the store keeps every earlier guarded element's value
      and adds element number `p = wm * WPTN + wn` in store order. */
  lemma StoreStepValues(c: seq<int>, cBase: int, w: WorkItem, creg: seq<seq<seq<int>>>,
                        bias: seq<int>, dBase: int, biasTerm: bool, m: int, n: int, wm: int, wn: int)
    requires ValidItem(w) && AccumulatorShape(creg) && BiasCovers(bias, dBase, biasTerm, m)
    requires 0 <= wm < WPTM && 0 <= wn < WPTN && 0 <= cBase && cBase + m * n <= |c|
    requires StoredUpTo(c, cBase, w, creg, bias, dBase, biasTerm, m, n, wm * WPTN + wn)
    ensures StoredUpTo(StoreElement(c, cBase, w, creg, bias, dBase, biasTerm, m, n, wm, wn),
                       cBase, w, creg, bias, dBase, biasTerm, m, n, wm * WPTN + wn + 1)
  {
    var p := wm * WPTN + wn;
    var c' := StoreElement(c, cBase, w, creg, bias, dBase, biasTerm, m, n, wm, wn);
    forall wm', wn' | 0 <= wm' < WPTM && 0 <= wn' < WPTN && wm' * WPTN + wn' < p + 1 && Guarded(w, m, n, wm', wn')
      ensures 0 <= StoreIndex(w, cBase, n, wm', wn') < |c'|
      ensures c'[StoreIndex(w, cBase, n, wm', wn')] == StoredValue(creg, bias, dBase, biasTerm, w, wm', wn')
    {
      StoreIndexInBlock(w, cBase, m, n, wm', wn');
      if wm' * WPTN + wn' == p {
        assert wm' == wm by {
          if wm' < wm { MulLeft(wm - 1, wm', WPTN); }
          if wm' > wm { MulLeft(wm', wm + 1, WPTN); }
        }
      } else if Guarded(w, m, n, wm, wn) {
        StoreIndexInjective(w, cBase, m, n, wm', wn', wm, wn);
      }
    }
  }

  /** One step of the store changes nothing but what the first `p + 1`
      elements write. */
  lemma StoreStepFrame(c: seq<int>, c0: seq<int>, cBase: int, w: WorkItem, creg: seq<seq<seq<int>>>,
                       bias: seq<int>, dBase: int, biasTerm: bool, m: int, n: int, wm: int, wn: int)
    requires ValidItem(w) && AccumulatorShape(creg) && BiasCovers(bias, dBase, biasTerm, m)
    requires 0 <= wm < WPTM && 0 <= wn < WPTN && 0 <= cBase && cBase + m * n <= |c|
    requires UnchangedElsewhere(c, c0, cBase, w, m, n, wm * WPTN + wn)
    ensures UnchangedElsewhere(StoreElement(c, cBase, w, creg, bias, dBase, biasTerm, m, n, wm, wn),
                               c0, cBase, w, m, n, wm * WPTN + wn + 1)
  {
    var p := wm * WPTN + wn;
    var c' := StoreElement(c, cBase, w, creg, bias, dBase, biasTerm, m, n, wm, wn);
    forall x | 0 <= x < |c'| && !WrittenBefore(x, w, cBase, m, n, p + 1)
      ensures c'[x] == c0[x]
    {
      assert !WrittenBefore(x, w, cBase, m, n, p);
      if Guarded(w, m, n, wm, wn) {
        assert x != StoreIndex(w, cBase, n, wm, wn);
      }
    }
  }

  /** One work item's store of its WPTM x WPTN results: every element that
      passes the guard is written, with the bias of its row added when the
      layer has one, and no other output element changes. The bias of a row
      is read only once the row is known to be below M, so the group's M
      bias entries are all the store ever reads. */
  method StoreResults(cOut: array<int>, cBase: int, w: WorkItem, creg: seq<seq<seq<int>>>,
                      bias: seq<int>, dBase: int, biasTerm: bool, m: int, n: int)
    requires ValidItem(w) && AccumulatorShape(creg) && BiasCovers(bias, dBase, biasTerm, m)
    requires 0 <= cBase && cBase + m * n <= cOut.Length
    modifies cOut
    ensures StoredUpTo(cOut[..], cBase, w, creg, bias, dBase, biasTerm, m, n, WPTM * WPTN)
    ensures UnchangedElsewhere(cOut[..], old(cOut[..]), cBase, w, m, n, WPTM * WPTN)
  {
    ghost var c0 := cOut[..];
    var wm := 0;
    while wm < WPTM
      invariant 0 <= wm <= WPTM && cOut.Length == |c0|
      invariant StoredUpTo(cOut[..], cBase, w, creg, bias, dBase, biasTerm, m, n, wm * WPTN)
      invariant UnchangedElsewhere(cOut[..], c0, cBase, w, m, n, wm * WPTN)
    {
      StoreRow(cOut, cBase, w, creg, bias, dBase, biasTerm, m, n, wm, c0);
      wm := wm + 1;
    }
  }

  /** One pass of the outer store loop: the bias of row `wm` (read only
      when the row is below M), then the WPTN elements of the row. */
  method StoreRow(cOut: array<int>, cBase: int, w: WorkItem, creg: seq<seq<seq<int>>>,
                  bias: seq<int>, dBase: int, biasTerm: bool, m: int, n: int, wm: int, ghost c0: seq<int>)
    requires ValidItem(w) && AccumulatorShape(creg) && BiasCovers(bias, dBase, biasTerm, m)
    requires 0 <= cBase && cBase + m * n <= cOut.Length && 0 <= wm < WPTM
    requires StoredUpTo(cOut[..], cBase, w, creg, bias, dBase, biasTerm, m, n, wm * WPTN)
    requires UnchangedElsewhere(cOut[..], c0, cBase, w, m, n, wm * WPTN)
    modifies cOut
    ensures StoredUpTo(cOut[..], cBase, w, creg, bias, dBase, biasTerm, m, n, (wm + 1) * WPTN)
    ensures UnchangedElsewhere(cOut[..], c0, cBase, w, m, n, (wm + 1) * WPTN)
  {
    var globalRow := w.offM + w.tidm + wm * RTSM;
    var biasval := 0;
    if biasTerm && globalRow < m {
      biasval := bias[dBase + globalRow];
    }
    var wn := 0;
    while wn < WPTN
      invariant 0 <= wn <= WPTN
      invariant StoredUpTo(cOut[..], cBase, w, creg, bias, dBase, biasTerm, m, n, wm * WPTN + wn)
      invariant UnchangedElsewhere(cOut[..], c0, cBase, w, m, n, wm * WPTN + wn)
    {
      StoreStepValues(cOut[..], cBase, w, creg, bias, dBase, biasTerm, m, n, wm, wn);
      StoreStepFrame(cOut[..], c0, cBase, w, creg, bias, dBase, biasTerm, m, n, wm, wn);
      StoreCell(cOut, cBase, w, creg, bias, dBase, biasTerm, m, n, wm, wn, biasval);
      wn := wn + 1;
    }
  }

  /** One iteration of the inner store loop: element (wm, wn) is written
      at `Cptr[globalRow * N + globalCol]` when it passes the guard, with
      the bias `biasval` read for its row, and the buffer is otherwise left
      alone. */
  method StoreCell(cOut: array<int>, cBase: int, w: WorkItem, creg: seq<seq<seq<int>>>,
                   bias: seq<int>, dBase: int, biasTerm: bool, m: int, n: int, wm: int, wn: int, biasval: int)
    requires ValidItem(w) && AccumulatorShape(creg) && BiasCovers(bias, dBase, biasTerm, m)
    requires 0 <= cBase && cBase + m * n <= cOut.Length && 0 <= wm < WPTM && 0 <= wn < WPTN
    requires biasTerm && 0 <= GlobalRow(w, wm) < m ==> biasval == bias[dBase + GlobalRow(w, wm)]
    requires !biasTerm ==> biasval == 0
    modifies cOut
    ensures cOut[..] == StoreElement(old(cOut[..]), cBase, w, creg, bias, dBase, biasTerm, m, n, wm, wn)
  {
    var globalRow := w.offM + w.tidm + wm * RTSM;
    var globalCol := w.offN + w.tidn + wn * RTSN;
    if globalRow < m && globalCol < n {
      StoreIndexInBlock(w, cBase, m, n, wm, wn);
      cOut[globalRow * n + globalCol + cBase] := creg[wm][wn / VWN][wn % VWN] + biasval;
    }
  }

  /** The store as written reads the bias of row `GlobalRow(w, wm)` before
      the guard. Whenever M is not a multiple of TSM, the last work-group
      row of the launch holds a work item whose row lies at or past M, so
      the unguarded read reaches past the group's M bias entries (past the
      end of the bias buffer for the last group). */
  lemma UnguardedBiasReadLeavesGroup(m: int)
    requires m >= 1 && m % TSM != 0
    ensures var groups := TruncDiv(m - 1, TSM) + 1;
      var w := WorkItem(TSM * (groups - 1), 0, RTSM - 1, 0);
      && ValidItem(w) && 0 <= groups - 1 < groups
      && GlobalRow(w, WPTM - 1) >= m
      && !Guarded(w, m, 1, WPTM - 1, 0)
  {
    TruncDivNonNegative(m - 1, TSM);
    var q := (m - 1) / TSM;
    assert m - 1 == q * TSM + (m - 1) % TSM;
    if (m - 1) % TSM == TSM - 1 {
      assert m == (q + 1) * TSM;
      DivModUnique(m, TSM, q + 1, 0);
    }
  }
}
