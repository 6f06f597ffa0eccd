/** Integer helpers shared by the convolution and tile models: the C++
    integer division, uniqueness of quotient and remainder, products of
    extents and the splitting of a flat index into a (high, low) pair. */
module Arith {

  /** C++ `a / b` for a positive divisor: the quotient truncated toward zero.
      The remainder `a - q * b` has the sign of `a` and is smaller than `b`. */
  function TruncDiv(a: int, b: int): (q: int)
    requires b > 0
    ensures a >= 0 ==> 0 <= a - q * b < b
    ensures a < 0 ==> -b < a - q * b <= 0
  {
    if a >= 0 then a / b
    else
      var m := -a;
      assert m == (m / b) * b + m % b;
      -(m / b)
  }

  /** A non-negative dividend divides the same way in C++ and in Dafny. */
  lemma TruncDivNonNegative(a: int, b: int)
    requires a >= 0 && b > 0
    ensures TruncDiv(a, b) == a / b
  {
  }

  /** Sign of a truncated quotient: non-negative for a non-negative
      dividend; for a negative one at most zero, and zero exactly when the
      dividend is above `-b`. */
  lemma TruncDivSign(a: int, b: int)
    requires b > 0
    ensures a >= 0 ==> TruncDiv(a, b) >= 0
    ensures a < 0 ==> TruncDiv(a, b) <= 0 && (TruncDiv(a, b) == 0 <==> a > -b)
  {
    var q := TruncDiv(a, b);
    if q < 0 {
      MulLeft(-1, q, b);
    } else if q > 0 {
      MulLeft(q, 1, b);
    }
  }

  /** Quotient and remainder are unique: any `q * d + r` with `0 <= r < d`
      divides back into `q` and `r`. */
  lemma DivModUnique(x: int, d: int, q: int, r: int)
    requires d > 0 && 0 <= r < d && x == q * d + r
    ensures x / d == q && x % d == r
  {
    var q0, r0 := x / d, x % d;
    assert (q - q0) * d == r0 - r;
    if q0 < q {
      MulLeft(q - q0, 1, d);
      assert false;
    } else if q0 > q {
      MulLeft(q0 - q, 1, d);
      assert false;
    }
  }

  /** Euclidean division splits `x` into quotient and remainder. */
  lemma DivMod(x: int, d: int)
    requires d > 0
    ensures x == (x / d) * d + x % d && 0 <= x % d < d
  {
  }

  /** Multiplying by a non-negative factor keeps `<=`. */
  lemma MulLeft(a: int, b: int, d: int)
    requires a >= b && d >= 0
    ensures a * d >= b * d
  {
    assert a * d - b * d == (a - b) * d;
  }

  /** Product of a sequence of extents, peeled from its last element. */
  function Prod(s: seq<int>): (p: int)
    decreases |s|
  {
    if |s| == 0 then 1 else Prod(s[..|s| - 1]) * s[|s| - 1]
  }

  predicate AllPositive(s: seq<int>)
  {
    forall i :: 0 <= i < |s| ==> s[i] > 0
  }

  ghost predicate AllNonNegative(s: seq<int>)
  {
    forall i :: 0 <= i < |s| ==> s[i] >= 0
  }

  lemma {:induction false} ProdPositive(s: seq<int>)
    requires AllPositive(s)
    ensures Prod(s) > 0
    decreases |s|
  {
    if |s| > 0 {
      ProdPositive(s[..|s| - 1]);
      MulLeft(Prod(s[..|s| - 1]), 1, s[|s| - 1]);
    }
  }

  lemma {:induction false} ProdNonNegative(s: seq<int>)
    requires AllNonNegative(s)
    ensures Prod(s) >= 0
    decreases |s|
  {
    if |s| > 0 {
      ProdNonNegative(s[..|s| - 1]);
      MulLeft(Prod(s[..|s| - 1]), 0, s[|s| - 1]);
    }
  }

  /** The product of a concatenation is the product of the products. */
  lemma {:induction false} ProdAppend(a: seq<int>, b: seq<int>)
    ensures Prod(a + b) == Prod(a) * Prod(b)
    decreases |b|
  {
    if |b| == 0 {
      assert a + b == a;
    } else {
      var n := |b| - 1;
      assert (a + b)[..|a + b| - 1] == a + b[..n];
      ProdAppend(a, b[..n]);
      assert Prod(a + b) == Prod(a + b[..n]) * b[n];
    }
  }

  /** Scaling one extent by `t` scales the product by `t`. */
  lemma ProdScaleAt(s: seq<int>, i: int, t: int)
    requires 0 <= i < |s|
    ensures Prod(s[i := s[i] * t]) == Prod(s) * t
  {
    var s' := s[i := s[i] * t];
    assert s == s[..i] + [s[i]] + s[i + 1..];
    assert s' == s[..i] + [s[i] * t] + s[i + 1..];
    ProdAppend(s[..i] + [s[i]], s[i + 1..]);
    ProdAppend(s[..i], [s[i]]);
    ProdAppend(s[..i] + [s[i] * t], s[i + 1..]);
    ProdAppend(s[..i], [s[i] * t]);
    assert Prod([s[i]]) == s[i] by { assert [s[i]][..0] == []; }
    assert Prod([s[i] * t]) == s[i] * t by { assert [s[i] * t][..0] == []; }
  }

  /** Slice `i` of `count` equal slices of `size` elements lies inside the
      `count * size` elements they make up. */
  lemma SliceInRange(i: int, count: int, size: int)
    requires 0 <= i < count && size >= 0
    ensures 0 <= i * size && i * size + size <= count * size
  {
    MulLeft(i, 0, size);
    MulLeft(count - 1, i, size);
    assert (count - 1) * size == count * size - size;
  }

  /** Equal slices laid end to end do not overlap: an element that lies in
      slice `i1` and in slice `i2` of `size` elements has `i1 == i2`. */
  lemma SliceOwner(i1: int, i2: int, size: int, x: int)
    requires size >= 0
    ensures i1 * size <= x < i1 * size + size && i2 * size <= x < i2 * size + size ==> i1 == i2
  {
    if i1 * size <= x < i1 * size + size && i2 * size <= x < i2 * size + size {
      DivModUnique(x, size, i1, x - i1 * size);
      DivModUnique(x, size, i2, x - i2 * size);
    }
  }

  /** A flat index `hi * width + lo` with `lo` in `[0, width)` splits back
      into `hi` and `lo`, and lies in `[0, width * count)` exactly when
      `hi` lies in `[0, count)`. */
  lemma SplitIndex(hi: int, lo: int, width: int, count: int)
    requires width > 0 && 0 <= lo < width
    ensures (hi * width + lo) / width == hi && (hi * width + lo) % width == lo
    ensures 0 <= hi < count <==> 0 <= hi * width + lo < count * width
  {
    DivModUnique(hi * width + lo, width, hi, lo);
    if 0 <= hi < count {
      MulLeft(count - 1, hi, width);
      assert (count - 1) * width == count * width - width;
      MulLeft(hi, 0, width);
    }
    if 0 <= hi * width + lo < count * width {
      if hi < 0 {
        MulLeft(-1, hi, width);
      }
      if hi >= count {
        MulLeft(hi, count, width);
      }
    }
  }

  /** Every `x` in `[0, width * count)` is `hi * width + lo` for the
      `hi`, `lo` that division gives it. */
  lemma JoinIndex(x: int, width: int, count: int)
    requires width > 0 && 0 <= x < count * width
    ensures 0 <= x / width < count && 0 <= x % width < width
    ensures x == (x / width) * width + x % width
  {
    SplitIndex(x / width, x % width, width, count);
  }
}
