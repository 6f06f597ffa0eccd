/** Mixed-radix index arithmetic used by the implicit im2col gather of
    src/caffe/layers/conv_layer.cpp: a flat index is peeled into one digit
    per spatial axis, innermost (last) axis first, and digits are
    recombined into a flat index from axis 0 up. */
module MixedRadix {
  import opened Arith

  /** What peeling leaves: one digit per axis (axis order) and the quotient
      that is left over once every axis has been divided out. */
  datatype Split = Split(digits: seq<int>, rest: int)

  /** Peel `x` by the radices `r`, last axis first: the digit of the last
      axis is `x % r[last]`, and the rest is peeled by the remaining axes.
      Every digit lies in `[0, r[i])` and the rest is non-negative. */
  function Peel(x: int, r: seq<int>): (p: Split)
    requires x >= 0 && AllPositive(r)
    ensures |p.digits| == |r|
    ensures forall i :: 0 <= i < |r| ==> 0 <= p.digits[i] < r[i]
    ensures 0 <= p.rest <= x
    decreases |r|
  {
    if |r| == 0 then Split([], x)
    else
      var n := |r| - 1;
      assert AllPositive(r[..n]);
      assert x / r[n] <= x by { MulLeft(x / r[n], 0, r[n]); MulLeft(r[n], 1, x / r[n]); }
      var p' := Peel(x / r[n], r[..n]);
      Split(p'.digits + [x % r[n]], p'.rest)
  }

  /** Recombine: `(((q * r[0] + d[0]) * r[1] + d[1]) ...) * r[n-1] + d[n-1]`. */
  function Compose(q: int, ds: seq<int>, r: seq<int>): (c: int)
    requires |ds| == |r|
    decreases |r|
  {
    if |r| == 0 then q
    else
      var n := |r| - 1;
      Compose(q, ds[..n], r[..n]) * r[n] + ds[n]
  }

  ghost predicate DigitsInRange(ds: seq<int>, r: seq<int>)
    requires |ds| == |r|
  {
    forall i :: 0 <= i < |r| ==> 0 <= ds[i] < r[i]
  }

  /** Peeling one more axis off a prefix of the radices: the unfolding the
      descending loop of the gather performs one axis at a time. */
  lemma PeelPrefixStep(x: int, r: seq<int>, i: int)
    requires x >= 0 && AllPositive(r) && 0 < i <= |r|
    ensures Peel(x, r[..i]).digits == Peel(x / r[i - 1], r[..i - 1]).digits + [x % r[i - 1]]
    ensures Peel(x, r[..i]).rest == Peel(x / r[i - 1], r[..i - 1]).rest
  {
    assert r[..i][..i - 1] == r[..i - 1];
  }

  /** One step of the descending loop: if peeling `x` by the first `i + 1`
      radices gives `digits[..i + 1]` and `rest`, then digit `i` is
      `x % r[i]` and peeling `x / r[i]` by the first `i` radices gives
      `digits[..i]` and the same rest. */
  lemma PeelLoopStep(x: int, r: seq<int>, digits: seq<int>, rest: int, i: int)
    requires x >= 0 && AllPositive(r) && 0 <= i < |r| && i < |digits|
    requires Peel(x, r[..i + 1]) == Split(digits[..i + 1], rest)
    ensures x / r[i] >= 0 && x % r[i] == digits[i]
    ensures Peel(x / r[i], r[..i]) == Split(digits[..i], rest)
  {
    PeelPrefixStep(x, r, i + 1);
    assert digits[..i + 1] == digits[..i] + [digits[i]];
  }

  /** Peeling and recombining along a single axis. */
  lemma SingleAxis(x: int, q: int, d: int, r: int)
    requires x >= 0 && r > 0
    ensures Peel(x, [r]) == Split([x % r], x / r)
    ensures Compose(q, [d], [r]) == q * r + d
  {
    assert [r][..0] == [] && [d][..0] == [];
    assert AllPositive([r]);
  }

  /** Recombining one more axis onto a prefix: the unfolding the ascending
      loop of the gather performs one axis at a time. */
  lemma ComposePrefixStep(q: int, ds: seq<int>, r: seq<int>, i: int)
    requires |ds| == |r| && 0 <= i < |r|
    ensures Compose(q, ds[..i + 1], r[..i + 1]) == Compose(q, ds[..i], r[..i]) * r[i] + ds[i]
  {
    assert ds[..i + 1][..i] == ds[..i];
    assert r[..i + 1][..i] == r[..i];
  }

  /** Round trip one way: recombining what peeling produced gives back `x`. */
  lemma {:induction false} ComposePeel(x: int, r: seq<int>)
    requires x >= 0 && AllPositive(r)
    ensures Compose(Peel(x, r).rest, Peel(x, r).digits, r) == x
    decreases |r|
  {
    if |r| > 0 {
      var n := |r| - 1;
      assert AllPositive(r[..n]) && x / r[n] >= 0;
      ComposePeel(x / r[n], r[..n]);
      ComposePeelStep(x, r);
    }
  }

  /** The inductive step of `ComposePeel`: the last axis contributes
      `(x / r[n]) * r[n] + x % r[n]`. */
  lemma ComposePeelStep(x: int, r: seq<int>)
    requires x >= 0 && AllPositive(r) && |r| > 0
    requires Compose(Peel(x / r[|r| - 1], r[..|r| - 1]).rest, Peel(x / r[|r| - 1], r[..|r| - 1]).digits, r[..|r| - 1])
             == x / r[|r| - 1]
    ensures Compose(Peel(x, r).rest, Peel(x, r).digits, r) == x
  {
    var n := |r| - 1;
    var xq, xr := x / r[n], x % r[n];
    DivMod(x, r[n]);
    var p := Peel(x, r);
    var p' := Peel(xq, r[..n]);
    assert p.digits == p'.digits + [xr] && p.rest == p'.rest;
    assert p.digits[..n] == p'.digits && p.digits[n] == xr;
    assert Compose(p.rest, p.digits, r) == xq * r[n] + xr;
  }

  /** Round trip the other way: peeling a recombined index gives back the
      digits and the quotient, provided every digit was in range. */
  lemma {:induction false} PeelCompose(q: int, ds: seq<int>, r: seq<int>)
    requires q >= 0 && AllPositive(r) && |ds| == |r| && DigitsInRange(ds, r)
    ensures Compose(q, ds, r) >= 0
    ensures Peel(Compose(q, ds, r), r) == Split(ds, q)
    decreases |r|
  {
    if |r| > 0 {
      var n := |r| - 1;
      var inner := Compose(q, ds[..n], r[..n]);
      PeelCompose(q, ds[..n], r[..n]);
      MulLeft(inner, 0, r[n]);
      DivModUnique(inner * r[n] + ds[n], r[n], inner, ds[n]);
      assert ds[..n] + [ds[n]] == ds;
    }
  }

  /** Bounds of a recombined index: with every digit in range it lies in
      the block `[q * Prod(r), (q + 1) * Prod(r))` that belongs to `q`. */
  lemma {:induction false} ComposeBounds(q: int, ds: seq<int>, r: seq<int>)
    requires AllPositive(r) && |ds| == |r| && DigitsInRange(ds, r)
    ensures q * Prod(r) <= Compose(q, ds, r) < (q + 1) * Prod(r)
    decreases |r|
  {
    if |r| > 0 {
      var n := |r| - 1;
      assert AllPositive(r[..n]) && DigitsInRange(ds[..n], r[..n]);
      ComposeBounds(q, ds[..n], r[..n]);
      ComposeBoundsStep(q, Compose(q, ds[..n], r[..n]), Prod(r[..n]), ds[n], r[n]);
    }
  }

  /** The inductive step of `ComposeBounds`: if `inner` lies in the block
      of `q` for extent product `p`, then `inner * radix + d`, with `d` in
      `[0, radix)`, lies in the block of `q` for `p * radix`. */
  lemma ComposeBoundsStep(q: int, inner: int, p: int, d: int, radix: int)
    requires radix > 0 && 0 <= d < radix && q * p <= inner < (q + 1) * p
    ensures q * (p * radix) <= inner * radix + d < (q + 1) * (p * radix)
  {
    MulLeft(inner, q * p, radix);
    MulLeft((q + 1) * p - 1, inner, radix);
    assert ((q + 1) * p - 1) * radix == (q + 1) * (p * radix) - radix;
    assert (q * p) * radix == q * (p * radix);
  }

  /** The quotient peeling leaves is `x / Prod(r)`, the closed form. */
  lemma PeelRest(x: int, r: seq<int>)
    requires x >= 0 && AllPositive(r)
    ensures Prod(r) > 0 && Peel(x, r).rest == x / Prod(r)
  {
    var p := Peel(x, r);
    var size := Prod(r);
    ComposePeel(x, r);
    ComposeBounds(p.rest, p.digits, r);
    ProdPositive(r);
    assert (p.rest + 1) * size == p.rest * size + size;
    DivModUnique(x, size, p.rest, x - p.rest * size);
  }

  /** Recombination is injective on in-range digits: two different
      (quotient, digits) pairs never land on the same flat index. */
  lemma ComposeInjective(q1: int, ds1: seq<int>, q2: int, ds2: seq<int>, r: seq<int>)
    requires q1 >= 0 && q2 >= 0 && AllPositive(r)
    requires |ds1| == |r| && DigitsInRange(ds1, r)
    requires |ds2| == |r| && DigitsInRange(ds2, r)
    requires Compose(q1, ds1, r) == Compose(q2, ds2, r)
    ensures q1 == q2 && ds1 == ds2
  {
    PeelCompose(q1, ds1, r);
    PeelCompose(q2, ds2, r);
  }
}
