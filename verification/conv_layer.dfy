/** The host side of the convolution layer in src/caffe/layers/conv_layer.cpp:
    the output-shape computation and the table of named integer
    definitions that parameterises the generated forward kernel. */
module ConvLayer {
  import opened Arith
  import opened Wrappers

  /** Extent covered by a kernel of `kernel` taps spaced `dilation` apart. */
  function KernelExtent(kernel: int, dilation: int): int
  {
    dilation * (kernel - 1) + 1
  }

  /** Room left for the kernel window to slide along one axis. */
  function Room(input: int, kernel: int, pad: int, dilation: int): int
  {
    input + 2 * pad - KernelExtent(kernel, dilation)
  }

  /** Output extent of one spatial axis as the layer computes it, with C++
      division (truncation toward zero). When the window fits, `o` is the
      number of stride steps that fit, plus one; when it does not fit, the
      truncation still answers 1 for a shortfall smaller than the stride. */
  function OutputDim(input: int, kernel: int, stride: int, pad: int, dilation: int): (o: int)
    requires stride > 0
    ensures Room(input, kernel, pad, dilation) >= 0 ==>
      o >= 1 && (o - 1) * stride <= Room(input, kernel, pad, dilation) < o * stride
    ensures Room(input, kernel, pad, dilation) < 0 ==>
      o <= 1 && (o == 1 <==> Room(input, kernel, pad, dilation) > -stride)
  {
    var room := Room(input, kernel, pad, dilation);
    TruncDivSign(room, stride);
    TruncDiv(room, stride) + 1
  }

  /** Output extent with floor division: the number of window positions
      `o` with `(o - 1) * stride <= room < o * stride`, for every room. */
  function FloorOutputDim(input: int, kernel: int, stride: int, pad: int, dilation: int): (o: int)
    requires stride > 0
    ensures (o - 1) * stride <= Room(input, kernel, pad, dilation) < o * stride
  {
    Room(input, kernel, pad, dilation) / stride + 1
  }

  /** When the kernel window fits, truncation and floor agree. */
  lemma OutputDimMatchesFloor(input: int, kernel: int, stride: int, pad: int, dilation: int)
    requires stride > 0 && Room(input, kernel, pad, dilation) >= 0
    ensures OutputDim(input, kernel, stride, pad, dilation) == FloorOutputDim(input, kernel, stride, pad, dilation)
  {
    TruncDivNonNegative(Room(input, kernel, pad, dilation), stride);
  }
  /** A kernel that overhangs the input still gets one output position: an
      input extent of 2 with kernel 3, stride 2, no pad and dilation 1
      leaves room -1, which C++ division truncates to quotient 0, so the
      layer computes an output extent of 1 where the floor extent is 0. */
  lemma KernelOverhangExtent()
    ensures Room(2, 3, 0, 1) == -1
    ensures OutputDim(2, 3, 2, 0, 1) == 1 && FloorOutputDim(2, 3, 2, 0, 1) == 0
  {
    assert KernelExtent(3, 1) == 3;
    TruncDivSign(-1, 2);
    assert -1 / 2 == -1;
  }


  /** The plain macro names the generator defines (and `v_g`, which the
      kernel text uses but the table never defines); `Spelling` gives the
      text of each. */
  datatype Macro =
    | BOff | COff | Imsi | Imso | Fin | Fout | MG | M | N | KG | K
    | PadA | PadB | TSM | TSN | TSK | TSKUnroll | WPTM | VWM | WPTN | VWN | RTSM | RTSN
    | LPTA | LPTB | NumTiles | GroupCount

  function Spelling(m: Macro): string
  {
    match m
    case BOff => "v_B_off"  case COff => "v_C_off"  case Imsi => "v_imsi"  case Imso => "v_imso"
    case Fin => "v_fin"  case Fout => "v_fout"  case MG => "MG"  case M => "M"  case N => "N"
    case KG => "KG"  case K => "K"  case PadA => "v_pad_A"  case PadB => "v_pad_B"
    case TSM => "TSM"  case TSN => "TSN"  case TSK => "TSK"  case TSKUnroll => "TSK_UNROLL"
    case WPTM => "WPTM"  case VWM => "VWM"  case WPTN => "WPTN"  case VWN => "VWN"
    case RTSM => "RTSM"  case RTSN => "RTSN"  case LPTA => "LPTA"  case LPTB => "LPTB"
    case NumTiles => "v_num_tiles"  case GroupCount => "v_g"
  }

  /** The block of the table a plain name is emitted in; `v_g` is in none. */
  datatype Block = Offsets | Sizes | Gemm | Tiling | NotEmitted

  function BlockOf(m: Macro): Block
  {
    match m
    case BOff | COff => Offsets
    case Imsi | Imso => Sizes
    case Fin | Fout | MG | M | N | KG | K => Gemm
    case GroupCount => NotEmitted
    case _ => Tiling
  }

  /** The stems of the per-axis names: `v_imsi`, `v_imso`, `v_k`, `v_p`,
      `v_s` and `v_d`, rendered with an underscore and the axis number. */
  datatype Stem = InExtent | OutExtent | Kernel | Pad | Stride | Dilation

  /** A name in the definition table: a plain macro name or a per-axis name. */
  datatype DefName = Named(id: Macro) | Indexed(stem: Stem, axis: nat)

  /** An arithmetic expression over table names, as the generator writes
      the derived tiling sizes into the kernel text. */
  datatype Expr =
    | Lit(n: int)
    | Ref(m: Macro)
    | Add(l: Expr, r: Expr)
    | Sub(l: Expr, r: Expr)
    | Mul(l: Expr, r: Expr)
    | Div(l: Expr, r: Expr)

  /** The table names an expression mentions. */
  function Refs(e: Expr): set<Macro>
  {
    match e
    case Lit(_) => {}
    case Ref(id) => {id}
    case Add(l, r) => Refs(l) + Refs(r)
    case Sub(l, r) => Refs(l) + Refs(r)
    case Mul(l, r) => Refs(l) + Refs(r)
    case Div(l, r) => Refs(l) + Refs(r)
  }

  /** A definition is an integer literal or an arithmetic expression. */
  datatype DefValue = Int(n: int) | Formula(e: Expr)

  /** The value of an expression as the kernel compiler folds it: names
      resolve to the integer literals the table binds them to, and `/` is
      C division. A name without an integer literal, or a divisor that is
      not positive, leaves the value undetermined. */
  function Eval(e: Expr, defs: seq<Def>): (r: Option<int>)
    ensures r.Some? ==> forall id :: id in Refs(e) ==> Lookup(defs, Named(id)).Some? && Lookup(defs, Named(id)).value.Int?
  {
    match e
    case Lit(n) => Some(n)
    case Ref(m) =>
      (match Lookup(defs, Named(m))
       case Some(Int(v)) => Some(v)
       case _ => None)
    case Add(l, r) =>
      (match (Eval(l, defs), Eval(r, defs))
       case (Some(x), Some(y)) => Some(x + y)
       case _ => None)
    case Sub(l, r) =>
      (match (Eval(l, defs), Eval(r, defs))
       case (Some(x), Some(y)) => Some(x - y)
       case _ => None)
    case Mul(l, r) =>
      (match (Eval(l, defs), Eval(r, defs))
       case (Some(x), Some(y)) => Some(x * y)
       case _ => None)
    case Div(l, r) =>
      (match (Eval(l, defs), Eval(r, defs))
       case (Some(x), Some(y)) => if y > 0 then Some(TruncDiv(x, y)) else None
       case _ => None)
  }

  datatype Def = Def(name: DefName, value: DefValue)

  /** The value a table gives a name: its first definition. */
  function Lookup(defs: seq<Def>, name: DefName): (r: Option<DefValue>)
  {
    if |defs| == 0 then None
    else if defs[0].name == name then Some(defs[0].value)
    else Lookup(defs[1..], name)
  }

  /** No name is defined twice. */
  ghost predicate NamesDistinct(defs: seq<Def>)
  {
    forall i, j :: 0 <= i < j < |defs| ==> defs[i].name != defs[j].name
  }

  /** One definition per axis: `stem_i` bound to `vals[i]`. */
  function AxisDefs(stem: Stem, vals: seq<int>): seq<Def>
  {
    seq(|vals|, i requires 0 <= i < |vals| => Def(Indexed(stem, i), Int(vals[i])))
  }

  /** Per-axis input and output extents, interleaved `v_imsi_i`, `v_imso_i`. */
  function ExtentDefs(inSpatial: seq<int>, outSpatial: seq<int>): seq<Def>
    requires |inSpatial| == |outSpatial|
  {
    seq(2 * |inSpatial|, j requires 0 <= j < 2 * |inSpatial| =>
      if j % 2 == 0 then Def(Indexed(InExtent, j / 2), Int(inSpatial[j / 2]))
      else Def(Indexed(OutExtent, j / 2), Int(outSpatial[j / 2])))
  }

  /** The fixed tiling and vectorisation definitions, in emission order. */
  const TilingDefs: seq<Def> := [
    Def(Named(PadA), Int(1)),
    Def(Named(PadB), Int(1)),
    Def(Named(TSM), Int(64)),
    Def(Named(TSN), Int(64)),
    Def(Named(TSK), Int(8)),
    Def(Named(TSKUnroll), Int(1)),
    Def(Named(WPTM), Int(4)),
    Def(Named(VWM), Int(4)),
    Def(Named(WPTN), Int(4)),
    Def(Named(VWN), Int(4)),
    Def(Named(RTSM), Int(16)),
    Def(Named(RTSN), Int(16)),
    Def(Named(LPTA), Formula(LptaExpr)),
    Def(Named(LPTB), Formula(LptbExpr)),
    Def(Named(NumTiles), Formula(NumTilesExpr))
  ]

  /** `((TSK*TSM)/(RTSM*RTSN))`: A-tile loads per work item. */
  const LptaExpr: Expr := Div(Mul(Ref(TSK), Ref(TSM)), Mul(Ref(RTSM), Ref(RTSN)))
  /** `((TSK*TSN)/(RTSM*RTSN))`: B-tile loads per work item. */
  const LptbExpr: Expr := Div(Mul(Ref(TSK), Ref(TSN)), Mul(Ref(RTSM), Ref(RTSN)))
  /** `(((K - 1)/(TSK*2) + 1)*2)`: the number of `TSK`-deep tiles along `K`,
      rounded up to an even count. */
  const NumTilesExpr: Expr := Mul(Add(Div(Sub(Ref(K), Lit(1)), Mul(Ref(TSK), Lit(2))), Lit(1)), Lit(2))

  /** The channel and GEMM-size definitions, in emission order. */
  function GemmDefs(fin: int, fout: int, group: int, outSpatial: seq<int>, kernel: seq<int>): seq<Def>
    requires group > 0
  {
    [ Def(Named(Fin), Int(fin)),
      Def(Named(Fout), Int(fout)),
      Def(Named(MG), Int(fout)),
      Def(Named(M), Int(TruncDiv(fout, group))),
      Def(Named(N), Int(Prod(outSpatial))),
      Def(Named(KG), Int(fin * Prod(kernel))),
      Def(Named(K), Int(TruncDiv(fin, group) * Prod(kernel))) ]
  }

  /** The definitions that depend on the spatial geometry, in emission
      order: batch offsets, per-axis extents, spatial sizes, and the
      kernel, pad, stride and dilation of every axis. */
  function SpatialDefs(fin: int, fout: int, inSpatial: seq<int>, outSpatial: seq<int>,
                       kernel: seq<int>, pad: seq<int>, stride: seq<int>, dilation: seq<int>): seq<Def>
    requires |inSpatial| == |outSpatial|
  {
    [ Def(Named(BOff), Int(fin * Prod(inSpatial))),
      Def(Named(COff), Int(fout * Prod(outSpatial))) ]
    + ExtentDefs(inSpatial, outSpatial)
    + [ Def(Named(Imsi), Int(Prod(inSpatial))),
        Def(Named(Imso), Int(Prod(outSpatial))) ]
    + AxisDefs(Kernel, kernel) + AxisDefs(Pad, pad) + AxisDefs(Stride, stride) + AxisDefs(Dilation, dilation)
  }

  /** The whole forward definition table, block by block, with every product
      in closed form: four offset and size entries, an input and an output
      extent per axis, one kernel, pad, stride and dilation entry per axis,
      seven channel and GEMM entries and the fifteen tiling entries. */
  function FwDefs(fin: int, fout: int, group: int, inSpatial: seq<int>, outSpatial: seq<int>,
                  kernel: seq<int>, pad: seq<int>, stride: seq<int>, dilation: seq<int>): (t: seq<Def>)
    requires group > 0 && |inSpatial| == |outSpatial|
    ensures |t| == 4 + 2 * |inSpatial| + |kernel| + |pad| + |stride| + |dilation| + 7 + 15
  {
    SpatialDefs(fin, fout, inSpatial, outSpatial, kernel, pad, stride, dilation)
    + GemmDefs(fin, fout, group, outSpatial, kernel)
    + TilingDefs
  }

  /** The state of a convolution layer that the forward-kernel generator
      reads, and the output shape it computes. */
  class ConvolutionLayer {
    /** Shape of the convolution input without the batch axis: channels,
        then one extent per spatial axis (`input_shape(0..)`). */
    var inputShape: seq<int>
    var kernelShape: seq<int>
    var stride: seq<int>
    var pad: seq<int>
    var dilation: seq<int>
    var numSpatialAxes: nat
    var outputShape: seq<int>
    /** Shape of the first bottom blob (`bottom_shape_[0]`). */
    var bottomShape: seq<int>
    var numOutput: int
    var group: int
    var biasTerm: bool

    /** The per-axis parameters have one entry per spatial axis and the
        strides are positive (the layer's set-up checks this). */
    ghost predicate Valid()
      reads this
    {
      && |inputShape| == numSpatialAxes + 1
      && |kernelShape| == numSpatialAxes
      && |stride| == numSpatialAxes
      && |pad| == numSpatialAxes
      && |dilation| == numSpatialAxes
      && AllPositive(stride)
    }

    /** The generator can run once the output shape is known, the bottom
        blob has an axis before the spatial ones and the group count is
        positive. */
    ghost predicate ReadyToGenerate()
      reads this
    {
      Valid() && |outputShape| == numSpatialAxes && |bottomShape| > numSpatialAxes && group > 0
    }

    /** Input feature maps: the bottom axis just before the spatial axes. */
    function InputMaps(): int
      reads this
      requires ReadyToGenerate()
    {
      bottomShape[|bottomShape| - |outputShape| - 1]
    }

    /** The spatial extents of the bottom blob. */
    function InputSpatial(): (s: seq<int>)
      reads this
      requires ReadyToGenerate()
      ensures |s| == |outputShape|
    {
      bottomShape[|bottomShape| - |outputShape|..]
    }

    /** The table this layer's configuration calls for. */
    function Table(): seq<Def>
      reads this
      requires ReadyToGenerate()
    {
      FwDefs(InputMaps(), numOutput, group, InputSpatial(), outputShape,
             kernelShape, pad, stride, dilation)
    }

    /** `compute_output_shape`: one output extent per spatial axis, in axis
        order, from the input extent (skipping the channel axis), kernel,
        stride, pad and dilation of that axis. */
    method ComputeOutputShape()
      requires Valid()
      modifies this`outputShape
      ensures Valid()
      ensures |outputShape| == numSpatialAxes
      ensures forall i :: 0 <= i < numSpatialAxes ==>
        outputShape[i] == OutputDim(inputShape[i + 1], kernelShape[i], stride[i], pad[i], dilation[i])
    {
      outputShape := [];
      var i := 0;
      while i < numSpatialAxes
        invariant 0 <= i <= numSpatialAxes
        invariant |outputShape| == i
        invariant forall j :: 0 <= j < i ==>
          outputShape[j] == OutputDim(inputShape[j + 1], kernelShape[j], stride[j], pad[j], dilation[j])
      {
        var inputDim := inputShape[i + 1];
        var kernelExtent := dilation[i] * (kernelShape[i] - 1) + 1;
        var outputDim := TruncDiv(inputDim + 2 * pad[i] - kernelExtent, stride[i]) + 1;
        outputShape := outputShape + [outputDim];
        i := i + 1;
      }
    }

    /** `generate_fw_defs`: multiplies up the batch offsets, the spatial
        sizes and the GEMM sizes and emits the definition table in order. */
    method GenerateFwDefs() returns (defs: seq<Def>)
      requires ReadyToGenerate()
      ensures defs == Table()
    {
      var n := |outputShape|;
      var skip := |bottomShape| - n;
      var fin := bottomShape[skip - 1];
      var fout := numOutput;
      var inSpatial := bottomShape[skip..];

      var bOff, cOff := BatchOffsets(fin, fout, inSpatial, outputShape);
      defs := [Def(Named(BOff), Int(bOff)), Def(Named(COff), Int(cOff))];
      var imsi, imso;
      defs, imsi, imso := EmitExtentDefs(defs, inSpatial, outputShape);
      defs := defs + [Def(Named(Imsi), Int(imsi)), Def(Named(Imso), Int(imso))];

      defs := EmitAxisDefs(defs, Kernel, kernelShape);
      defs := EmitAxisDefs(defs, Pad, pad);
      defs := EmitAxisDefs(defs, Stride, stride);
      defs := EmitAxisDefs(defs, Dilation, dilation);

      defs := defs + [Def(Named(Fin), Int(fin)), Def(Named(Fout), Int(fout))];
      var mg := fout;
      var m := TruncDiv(fout, group);
      var nn, kg, k := GemmSizes(fin, group, kernelShape, outputShape);
      defs := defs + [Def(Named(MG), Int(mg)), Def(Named(M), Int(m)), Def(Named(N), Int(nn)),
                      Def(Named(KG), Int(kg)), Def(Named(K), Int(k))];
      defs := defs + TilingDefs;
    }

    /** The `skip_range_check_` flag of `generate_fw_kernels`: true exactly
        when no pad value is positive. */
    method SkipRangeCheck() returns (skip: bool)
      requires Valid()
      ensures skip <==> forall i :: 0 <= i < |pad| ==> pad[i] <= 0
    {
      skip := true;
      var i := 0;
      while i < |pad|
        invariant 0 <= i <= |pad|
        invariant skip <==> forall j :: 0 <= j < i ==> pad[j] <= 0
      {
        if pad[i] > 0 {
          skip := false;
        }
        i := i + 1;
      }
    }
  }

  /** One `add_def` loop over a per-axis parameter: appends `stem_i` for
      every axis, in axis order. */
  method EmitAxisDefs(defs0: seq<Def>, stem: Stem, vals: seq<int>) returns (defs: seq<Def>)
    ensures defs == defs0 + AxisDefs(stem, vals)
  {
    defs := defs0;
    var i := 0;
    while i < |vals|
      invariant 0 <= i <= |vals|
      invariant defs == defs0 + AxisDefs(stem, vals[..i])
    {
      assert AxisDefs(stem, vals[..i + 1]) == AxisDefs(stem, vals[..i]) + [Def(Indexed(stem, i), Int(vals[i]))];
      defs := defs + [Def(Indexed(stem, i), Int(vals[i]))];
      i := i + 1;
    }
    assert vals[..|vals|] == vals;
  }

  /** The first loop of `generate_fw_defs`: the input and output batch
      offsets, feature maps times the product of the spatial extents. */
  method BatchOffsets(fin: int, fout: int, inSpatial: seq<int>, outSpatial: seq<int>) returns (bOff: int, cOff: int)
    requires |inSpatial| == |outSpatial|
    ensures bOff == fin * Prod(inSpatial) && cOff == fout * Prod(outSpatial)
  {
    bOff, cOff := fin, fout;
    var i := 0;
    while i < |outSpatial|
      invariant 0 <= i <= |outSpatial|
      invariant bOff == fin * Prod(inSpatial[..i])
      invariant cOff == fout * Prod(outSpatial[..i])
    {
      assert inSpatial[..i + 1][..i] == inSpatial[..i];
      assert outSpatial[..i + 1][..i] == outSpatial[..i];
      bOff := bOff * inSpatial[i];
      cOff := cOff * outSpatial[i];
      i := i + 1;
    }
    assert inSpatial[..i] == inSpatial && outSpatial[..i] == outSpatial;
  }

  /** The second loop of `generate_fw_defs`: emits `v_imsi_i` and `v_imso_i`
      axis by axis and multiplies up the input and output spatial sizes. */
  method EmitExtentDefs(defs0: seq<Def>, inSpatial: seq<int>, outSpatial: seq<int>)
    returns (defs: seq<Def>, imsi: int, imso: int)
    requires |inSpatial| == |outSpatial|
    ensures defs == defs0 + ExtentDefs(inSpatial, outSpatial)
    ensures imsi == Prod(inSpatial) && imso == Prod(outSpatial)
  {
    defs, imsi, imso := defs0, 1, 1;
    var i := 0;
    while i < |outSpatial|
      invariant 0 <= i <= |outSpatial|
      invariant imsi == Prod(inSpatial[..i]) && imso == Prod(outSpatial[..i])
      invariant defs == defs0 + ExtentDefs(inSpatial[..i], outSpatial[..i])
    {
      assert inSpatial[..i + 1][..i] == inSpatial[..i];
      assert outSpatial[..i + 1][..i] == outSpatial[..i];
      assert ExtentDefs(inSpatial[..i + 1], outSpatial[..i + 1])
          == ExtentDefs(inSpatial[..i], outSpatial[..i])
             + [Def(Indexed(InExtent, i), Int(inSpatial[i])), Def(Indexed(OutExtent, i), Int(outSpatial[i]))];
      defs := defs + [Def(Indexed(InExtent, i), Int(inSpatial[i]))];
      imsi := imsi * inSpatial[i];
      defs := defs + [Def(Indexed(OutExtent, i), Int(outSpatial[i]))];
      imso := imso * outSpatial[i];
      i := i + 1;
    }
    assert inSpatial[..i] == inSpatial && outSpatial[..i] == outSpatial;
  }

  /** The GEMM-size loop of `generate_fw_defs`: `N` is the output spatial
      volume, `KG` the input maps times the kernel volume and `K` the maps
      of one group times the kernel volume. */
  method GemmSizes(fin: int, group: int, kernel: seq<int>, outSpatial: seq<int>) returns (nn: int, kg: int, k: int)
    requires group > 0 && |kernel| == |outSpatial|
    ensures nn == Prod(outSpatial)
    ensures kg == fin * Prod(kernel)
    ensures k == TruncDiv(fin, group) * Prod(kernel)
  {
    nn, kg, k := 1, fin, TruncDiv(fin, group);
    var i := 0;
    while i < |outSpatial|
      invariant 0 <= i <= |outSpatial|
      invariant k == TruncDiv(fin, group) * Prod(kernel[..i])
      invariant kg == fin * Prod(kernel[..i])
      invariant nn == Prod(outSpatial[..i])
    {
      assert kernel[..i + 1][..i] == kernel[..i];
      assert outSpatial[..i + 1][..i] == outSpatial[..i];
      k := k * kernel[i];
      kg := kg * kernel[i];
      nn := nn * outSpatial[i];
      i := i + 1;
    }
    assert kernel[..i] == kernel && outSpatial[..i] == outSpatial;
  }

  // ---------------------------------------------------------------------
  // Properties of the definition table

  /** Every name of `defs` is a plain name from one of the blocks `blocks`
      or a per-axis name whose stem is in `stems`. */
  ghost predicate NamesWithin(defs: seq<Def>, blocks: set<Block>, stems: set<Stem>)
  {
    forall i :: 0 <= i < |defs| ==>
      match defs[i].name
      case Named(id) => BlockOf(id) in blocks
      case Indexed(stem, _) => stem in stems
  }

  /** Two tables with distinct names whose name families do not overlap
      concatenate into a table with distinct names. */
  lemma ConcatDistinct(a: seq<Def>, ia: set<Block>, sa: set<Stem>,
                       b: seq<Def>, ib: set<Block>, sb: set<Stem>)
    requires NamesDistinct(a) && NamesWithin(a, ia, sa)
    requires NamesDistinct(b) && NamesWithin(b, ib, sb)
    requires ia !! ib && sa !! sb
    ensures NamesDistinct(a + b) && NamesWithin(a + b, ia + ib, sa + sb)
  {
    var c := a + b;
    forall i, j | 0 <= i < j < |c|
      ensures c[i].name != c[j].name
    {
      if i < |a| && j >= |a| {
        assert c[j] == b[j - |a|];
        match c[i].name {
          case Named(id) =>
          case Indexed(stem, _) =>
        }
      } else if i >= |a| {
        assert c[i] == b[i - |a|] && c[j] == b[j - |a|];
      }
    }
    forall i | 0 <= i < |c|
      ensures match c[i].name
        case Named(id) => BlockOf(id) in ia + ib
        case Indexed(stem, _) => stem in sa + sb
    {
      if i >= |a| { assert c[i] == b[i - |a|]; }
    }
  }

  lemma AxisDefsDistinct(stem: Stem, vals: seq<int>)
    ensures NamesDistinct(AxisDefs(stem, vals)) && NamesWithin(AxisDefs(stem, vals), {}, {stem})
  {
  }

  lemma ExtentDefsDistinct(inSpatial: seq<int>, outSpatial: seq<int>)
    requires |inSpatial| == |outSpatial|
    ensures NamesDistinct(ExtentDefs(inSpatial, outSpatial))
    ensures NamesWithin(ExtentDefs(inSpatial, outSpatial), {}, {InExtent, OutExtent})
  {
    var e := ExtentDefs(inSpatial, outSpatial);
    forall i, j | 0 <= i < j < |e|
      ensures e[i].name != e[j].name
    {
      if i % 2 == j % 2 {
        assert i / 2 != j / 2;
      }
    }
  }

  const TilingBlocks: set<Block> := {Tiling}

  const GemmBlocks: set<Block> := {Gemm}

  lemma TilingDefsDistinct()
    ensures NamesDistinct(TilingDefs) && NamesWithin(TilingDefs, TilingBlocks, {})
  {
  }

  lemma GemmDefsDistinct(fin: int, fout: int, group: int, outSpatial: seq<int>, kernel: seq<int>)
    requires group > 0
    ensures NamesDistinct(GemmDefs(fin, fout, group, outSpatial, kernel))
    ensures NamesWithin(GemmDefs(fin, fout, group, outSpatial, kernel), GemmBlocks, {})
  {
  }

  const SpatialBlocks: set<Block> := {Offsets, Sizes}
  const SpatialStems: set<Stem> := {InExtent, OutExtent, Kernel, Pad, Stride, Dilation}

  lemma SpatialDefsDistinct(fin: int, fout: int, inSpatial: seq<int>, outSpatial: seq<int>,
                            kernel: seq<int>, pad: seq<int>, stride: seq<int>, dilation: seq<int>)
    requires |inSpatial| == |outSpatial|
    ensures NamesDistinct(SpatialDefs(fin, fout, inSpatial, outSpatial, kernel, pad, stride, dilation))
    ensures NamesWithin(SpatialDefs(fin, fout, inSpatial, outSpatial, kernel, pad, stride, dilation), SpatialBlocks, SpatialStems)
  {
    var head := [ Def(Named(BOff), Int(fin * Prod(inSpatial))),
                  Def(Named(COff), Int(fout * Prod(outSpatial))) ];
    var sizes := [ Def(Named(Imsi), Int(Prod(inSpatial))),
                   Def(Named(Imso), Int(Prod(outSpatial))) ];
    assert NamesWithin(head, {Offsets}, {});
    assert NamesWithin(sizes, {Sizes}, {});
    ExtentDefsDistinct(inSpatial, outSpatial);
    ConcatDistinct(head, {Offsets}, {},
                   ExtentDefs(inSpatial, outSpatial), {}, {InExtent, OutExtent});
    var d := head + ExtentDefs(inSpatial, outSpatial);
    ConcatDistinct(d, {Offsets}, {InExtent, OutExtent},
                   sizes, {Sizes}, {});
    d := d + sizes;
    AxisDefsDistinct(Kernel, kernel);
    ConcatDistinct(d, SpatialBlocks, {InExtent, OutExtent}, AxisDefs(Kernel, kernel), {}, {Kernel});
    d := d + AxisDefs(Kernel, kernel);
    AxisDefsDistinct(Pad, pad);
    ConcatDistinct(d, SpatialBlocks, {InExtent, OutExtent, Kernel}, AxisDefs(Pad, pad), {}, {Pad});
    d := d + AxisDefs(Pad, pad);
    AxisDefsDistinct(Stride, stride);
    ConcatDistinct(d, SpatialBlocks, {InExtent, OutExtent, Kernel, Pad}, AxisDefs(Stride, stride), {}, {Stride});
    d := d + AxisDefs(Stride, stride);
    AxisDefsDistinct(Dilation, dilation);
    ConcatDistinct(d, SpatialBlocks, {InExtent, OutExtent, Kernel, Pad, Stride}, AxisDefs(Dilation, dilation), {}, {Dilation});
  }

  /** The generated table defines every name at most once, so it reads as
      a set of macro definitions with no redefinition. */
  lemma FwDefsDistinct(fin: int, fout: int, group: int, inSpatial: seq<int>, outSpatial: seq<int>,
                       kernel: seq<int>, pad: seq<int>, stride: seq<int>, dilation: seq<int>)
    requires group > 0 && |inSpatial| == |outSpatial|
    ensures NamesDistinct(FwDefs(fin, fout, group, inSpatial, outSpatial, kernel, pad, stride, dilation))
    ensures NamesWithin(FwDefs(fin, fout, group, inSpatial, outSpatial, kernel, pad, stride, dilation),
                        SpatialBlocks + GemmBlocks + TilingBlocks, SpatialStems)
  {
    var d := SpatialDefs(fin, fout, inSpatial, outSpatial, kernel, pad, stride, dilation);
    SpatialDefsDistinct(fin, fout, inSpatial, outSpatial, kernel, pad, stride, dilation);
    GemmDefsDistinct(fin, fout, group, outSpatial, kernel);
    ConcatDistinct(d, SpatialBlocks, SpatialStems, GemmDefs(fin, fout, group, outSpatial, kernel), GemmBlocks, {});
    d := d + GemmDefs(fin, fout, group, outSpatial, kernel);
    TilingDefsDistinct();
    ConcatDistinct(d, SpatialBlocks + GemmBlocks, SpatialStems, TilingDefs, TilingBlocks, {});
  }

  /** In a table with distinct names, looking up the name of entry `i`
      finds entry `i`'s value. */
  lemma {:induction false} LookupAt(defs: seq<Def>, i: int)
    requires NamesDistinct(defs) && 0 <= i < |defs|
    ensures Lookup(defs, defs[i].name) == Some(defs[i].value)
  {
    if i > 0 {
      assert defs[0].name != defs[i].name;
      assert defs[1..][i - 1] == defs[i];
      LookupAt(defs[1..], i - 1);
    }
  }

  /** A name no entry carries is not defined. */
  lemma {:induction false} LookupMissing(defs: seq<Def>, name: DefName)
    requires forall i :: 0 <= i < |defs| ==> defs[i].name != name
    ensures Lookup(defs, name) == None
  {
    if |defs| > 0 {
      LookupMissing(defs[1..], name);
    }
  }

  /** Each offset and GEMM size resolves, through the table, to its closed
      form: products of the per-axis extents, and `M`, `K` divided by the
      group count with C++ division. */
  lemma FwDefsSizes(fin: int, fout: int, group: int, inSpatial: seq<int>, outSpatial: seq<int>,
                    kernel: seq<int>, pad: seq<int>, stride: seq<int>, dilation: seq<int>)
    requires group > 0 && |inSpatial| == |outSpatial|
    ensures var t := FwDefs(fin, fout, group, inSpatial, outSpatial, kernel, pad, stride, dilation);
      && Lookup(t, Named(BOff)) == Some(Int(fin * Prod(inSpatial)))
      && Lookup(t, Named(COff)) == Some(Int(fout * Prod(outSpatial)))
      && Lookup(t, Named(Imsi)) == Some(Int(Prod(inSpatial)))
      && Lookup(t, Named(Imso)) == Some(Int(Prod(outSpatial)))
      && Lookup(t, Named(Fin)) == Some(Int(fin))
      && Lookup(t, Named(Fout)) == Some(Int(fout))
      && Lookup(t, Named(MG)) == Some(Int(fout))
      && Lookup(t, Named(M)) == Some(Int(TruncDiv(fout, group)))
      && Lookup(t, Named(N)) == Some(Int(Prod(outSpatial)))
      && Lookup(t, Named(KG)) == Some(Int(fin * Prod(kernel)))
      && Lookup(t, Named(K)) == Some(Int(TruncDiv(fin, group) * Prod(kernel)))
  {
    var t := FwDefs(fin, fout, group, inSpatial, outSpatial, kernel, pad, stride, dilation);
    FwDefsDistinct(fin, fout, group, inSpatial, outSpatial, kernel, pad, stride, dilation);
    var n := |inSpatial|;
    var g := 2 + 2 * n + 2 + |kernel| + |pad| + |stride| + |dilation|;
    LookupAt(t, 0);
    LookupAt(t, 1);
    LookupAt(t, 2 + 2 * n);
    LookupAt(t, 3 + 2 * n);
    LookupAt(t, g);
    LookupAt(t, g + 1);
    LookupAt(t, g + 2);
    LookupAt(t, g + 3);
    LookupAt(t, g + 4);
    LookupAt(t, g + 5);
    LookupAt(t, g + 6);
  }

  /** Every tiling name resolves to the literal or expression of its entry
      in the tiling block. */
  lemma FwDefsTiling(fin: int, fout: int, group: int, inSpatial: seq<int>, outSpatial: seq<int>,
                     kernel: seq<int>, pad: seq<int>, stride: seq<int>, dilation: seq<int>)
    requires group > 0 && |inSpatial| == |outSpatial|
    ensures forall j :: 0 <= j < |TilingDefs| ==>
      Lookup(FwDefs(fin, fout, group, inSpatial, outSpatial, kernel, pad, stride, dilation), TilingDefs[j].name)
        == Some(TilingDefs[j].value)
  {
    var t := FwDefs(fin, fout, group, inSpatial, outSpatial, kernel, pad, stride, dilation);
    FwDefsDistinct(fin, fout, group, inSpatial, outSpatial, kernel, pad, stride, dilation);
    var g := |SpatialDefs(fin, fout, inSpatial, outSpatial, kernel, pad, stride, dilation)| + 7;
    forall j | 0 <= j < |TilingDefs|
      ensures Lookup(t, TilingDefs[j].name) == Some(TilingDefs[j].value)
    {
      assert t[g + j] == TilingDefs[j];
      LookupAt(t, g + j);
    }
  }

  /** Entry `i` of the generated table, for an index inside the spatial
      block. */
  lemma FwDefsSpatialEntry(fin: int, fout: int, group: int, inSpatial: seq<int>, outSpatial: seq<int>,
                           kernel: seq<int>, pad: seq<int>, stride: seq<int>, dilation: seq<int>, j: int)
    requires group > 0 && |inSpatial| == |outSpatial|
    requires 0 <= j < |SpatialDefs(fin, fout, inSpatial, outSpatial, kernel, pad, stride, dilation)|
    ensures FwDefs(fin, fout, group, inSpatial, outSpatial, kernel, pad, stride, dilation)[j]
         == SpatialDefs(fin, fout, inSpatial, outSpatial, kernel, pad, stride, dilation)[j]
  {
  }

  /** Every per-axis extent name resolves to that axis's extent. */
  lemma FwDefsExtents(fin: int, fout: int, group: int, inSpatial: seq<int>, outSpatial: seq<int>,
                      kernel: seq<int>, pad: seq<int>, stride: seq<int>, dilation: seq<int>, i: nat)
    requires group > 0 && |inSpatial| == |outSpatial| && i < |inSpatial|
    ensures var t := FwDefs(fin, fout, group, inSpatial, outSpatial, kernel, pad, stride, dilation);
      && Lookup(t, Indexed(InExtent, i)) == Some(Int(inSpatial[i]))
      && Lookup(t, Indexed(OutExtent, i)) == Some(Int(outSpatial[i]))
  {
    var t := FwDefs(fin, fout, group, inSpatial, outSpatial, kernel, pad, stride, dilation);
    FwDefsDistinct(fin, fout, group, inSpatial, outSpatial, kernel, pad, stride, dilation);
    var e := ExtentDefs(inSpatial, outSpatial);
    DivModUnique(2 * i, 2, i, 0);
    DivModUnique(2 * i + 1, 2, i, 1);
    assert e[2 * i] == Def(Indexed(InExtent, i), Int(inSpatial[i]));
    assert e[2 * i + 1] == Def(Indexed(OutExtent, i), Int(outSpatial[i]));
    var sp := SpatialDefs(fin, fout, inSpatial, outSpatial, kernel, pad, stride, dilation);
    assert sp[2 + 2 * i] == e[2 * i] && sp[3 + 2 * i] == e[2 * i + 1];
    FwDefsSpatialEntry(fin, fout, group, inSpatial, outSpatial, kernel, pad, stride, dilation, 2 + 2 * i);
    FwDefsSpatialEntry(fin, fout, group, inSpatial, outSpatial, kernel, pad, stride, dilation, 3 + 2 * i);
    LookupAt(t, 2 + 2 * i);
    LookupAt(t, 3 + 2 * i);
  }

  /** Every per-axis kernel, pad, stride and dilation name resolves to that
      axis's value. */
  lemma FwDefsAxisParams(fin: int, fout: int, group: int, inSpatial: seq<int>, outSpatial: seq<int>,
                         kernel: seq<int>, pad: seq<int>, stride: seq<int>, dilation: seq<int>, i: nat)
    requires group > 0 && |inSpatial| == |outSpatial|
    requires i < |inSpatial| && |kernel| == |pad| == |stride| == |dilation| == |inSpatial|
    ensures var t := FwDefs(fin, fout, group, inSpatial, outSpatial, kernel, pad, stride, dilation);
      && Lookup(t, Indexed(Kernel, i)) == Some(Int(kernel[i]))
      && Lookup(t, Indexed(Pad, i)) == Some(Int(pad[i]))
      && Lookup(t, Indexed(Stride, i)) == Some(Int(stride[i]))
      && Lookup(t, Indexed(Dilation, i)) == Some(Int(dilation[i]))
  {
    var t := FwDefs(fin, fout, group, inSpatial, outSpatial, kernel, pad, stride, dilation);
    FwDefsDistinct(fin, fout, group, inSpatial, outSpatial, kernel, pad, stride, dilation);
    var n := |inSpatial|;
    var a := 4 + 2 * n;
    FwDefsSpatialEntry(fin, fout, group, inSpatial, outSpatial, kernel, pad, stride, dilation, a + i);
    FwDefsSpatialEntry(fin, fout, group, inSpatial, outSpatial, kernel, pad, stride, dilation, a + n + i);
    FwDefsSpatialEntry(fin, fout, group, inSpatial, outSpatial, kernel, pad, stride, dilation, a + 2 * n + i);
    FwDefsSpatialEntry(fin, fout, group, inSpatial, outSpatial, kernel, pad, stride, dilation, a + 3 * n + i);
    LookupAt(t, a + i);
    LookupAt(t, a + n + i);
    LookupAt(t, a + 2 * n + i);
    LookupAt(t, a + 3 * n + i);
  }

  /** With a group count that divides both channel counts, the grouped
      sizes are the per-group sizes times the group count: `K * group == KG`,
      `M * group == MG`, and the output batch offset is `group * M * N`. */
  lemma FwDefsGrouping(fin: int, fout: int, group: int, inSpatial: seq<int>, outSpatial: seq<int>,
                       kernel: seq<int>, pad: seq<int>, stride: seq<int>, dilation: seq<int>)
    requires group > 0 && |inSpatial| == |outSpatial|
    requires fin >= 0 && fout >= 0 && fin % group == 0 && fout % group == 0
    ensures var k := TruncDiv(fin, group) * Prod(kernel);
            var m := TruncDiv(fout, group);
      && k * group == fin * Prod(kernel)
      && m * group == fout
      && fout * Prod(outSpatial) == group * m * Prod(outSpatial)
  {
    TruncDivNonNegative(fin, group);
    TruncDivNonNegative(fout, group);
    assert fin == (fin / group) * group;
    assert fout == (fout / group) * group;
  }

  /** The table never defines the group count `v_g`, although the kernel
      text emitted for more than one group refers to it. */
  lemma FwDefsLacksGroupCount(fin: int, fout: int, group: int, inSpatial: seq<int>, outSpatial: seq<int>,
                              kernel: seq<int>, pad: seq<int>, stride: seq<int>, dilation: seq<int>)
    requires group > 0 && |inSpatial| == |outSpatial|
    ensures Lookup(FwDefs(fin, fout, group, inSpatial, outSpatial, kernel, pad, stride, dilation), Named(GroupCount)) == None
  {
    var t := FwDefs(fin, fout, group, inSpatial, outSpatial, kernel, pad, stride, dilation);
    FwDefsDistinct(fin, fout, group, inSpatial, outSpatial, kernel, pad, stride, dilation);
    assert BlockOf(GroupCount) !in SpatialBlocks + GemmBlocks + TilingBlocks;
    forall i | 0 <= i < |t|
      ensures t[i].name != Named(GroupCount)
    {
      match t[i].name {
        case Named(id) =>
        case Indexed(_, _) =>
      }
    }
    LookupMissing(t, Named(GroupCount));
  }
}
