/**
 * The batch-broadcast descriptor of the brgemm matmul driver and three small
 * layout predicates of its configuration helpers.
 */
module Matmul {
  import opened Common

  /** DNNL_MAX_NDIMS of the public headers. */
  const MaxNdims: nat := 12
  /** `max_batch_ndims`: the last two dimensions are the matrix ones. */
  const MaxBatchNdims: nat := MaxNdims - 2

  /** Dimension `d` is broadcast: the destination has extent there and the input has 1. */
  predicate IsBcast(inp: seq<int>, dst: seq<int>, d: nat)
    requires d < |inp| && d < |dst|
  {
    dst[d] != 1 && inp[d] == 1
  }

  /** The smallest broadcast dimension below `n`, or -1. */
  function FirstBcast(inp: seq<int>, dst: seq<int>, n: nat): (r: int)
    requires n <= |inp| && n <= |dst|
    ensures -1 <= r < n
    ensures r == -1 <==> forall d :: 0 <= d < n ==> !IsBcast(inp, dst, d)
    ensures r >= 0 ==> IsBcast(inp, dst, r) && forall d :: 0 <= d < r ==> !IsBcast(inp, dst, d)
  {
    if n == 0 then -1
    else
      var f := FirstBcast(inp, dst, n - 1);
      if f != -1 then f else if IsBcast(inp, dst, n - 1) then n - 1 else -1
  }

  /** The largest broadcast dimension below `n`, or -1. */
  function LastBcast(inp: seq<int>, dst: seq<int>, n: nat): (r: int)
    requires n <= |inp| && n <= |dst|
    ensures -1 <= r < n
    ensures r == -1 <==> forall d :: 0 <= d < n ==> !IsBcast(inp, dst, d)
    ensures r >= 0 ==> IsBcast(inp, dst, r) && forall d :: r < d < n ==> !IsBcast(inp, dst, d)
  {
    if n == 0 then -1
    else if IsBcast(inp, dst, n - 1) then n - 1
    else LastBcast(inp, dst, n - 1)
  }

  /** Product of the destination extents of the broadcast dimensions below `n`. */
  function BcastProd(inp: seq<int>, dst: seq<int>, n: nat): int
    requires n <= |inp| && n <= |dst|
  {
    if n == 0 then 1
    else BcastProd(inp, dst, n - 1) * (if IsBcast(inp, dst, n - 1) then dst[n - 1] else 1)
  }

  /** `x` divided in turn (with C truncation) by each of `dst[0..n)`. */
  function ChainDiv(x: int, dst: seq<int>, n: nat): int
    requires n <= |dst|
    requires forall d :: 0 <= d < n ==> dst[d] != 0
  {
    if n == 0 then x else TDiv(ChainDiv(x, dst, n - 1), dst[n - 1])
  }

  /** Bit `k` of `m`. */
  predicate Bit(m: nat, k: nat) {
    if k == 0 then m % 2 == 1 else Bit(m / 2, k - 1)
  }

  /** The C `|` on non-negative `int`s. */
  function BitOr(a: nat, b: nat): (r: nat)
    ensures r >= a && r >= b
    ensures r == 0 <==> a == 0 && b == 0
    decreases a + b
  {
    if a == 0 && b == 0 then 0
    else 2 * BitOr(a / 2, b / 2) + (if a % 2 == 1 || b % 2 == 1 then 1 else 0)
  }

  lemma {:induction false} OrBit(a: nat, b: nat, k: nat)
    ensures Bit(BitOr(a, b), k) <==> Bit(a, k) || Bit(b, k)
    decreases k
  {
    if a == 0 && b == 0 {
      ZeroBit(k);
    } else if k > 0 {
      OrBit(a / 2, b / 2, k - 1);
    }
  }

  lemma {:induction false} ZeroBit(k: nat)
    ensures !Bit(0, k)
  {
    if k > 0 { ZeroBit(k - 1); }
  }

  lemma {:induction false} Pow2Bit(j: nat, k: nat)
    ensures Bit(Pow2(j), k) <==> j == k
  {
    if k == 0 {
      if j > 0 { assert Pow2(j) == 2 * Pow2(j - 1); }
    } else if j == 0 {
      ZeroBit(k - 1);
    } else {
      Pow2Bit(j - 1, k - 1);
    }
  }

  /** The mask bit of dimension `d` out of `ndims`: `(1 << (ndims - 1)) >> d`. */
  function DimBit(ndims: nat, d: nat): (r: nat)
    requires d < ndims <= MaxBatchNdims
    ensures r > 0 && Bit(r, ndims - 1 - d)
  {
    Pow2Bit(ndims - 1 - d, ndims - 1 - d);
    Pow2(ndims - 1 - d)
  }

  /** The OR of the mask bits of the broadcast dimensions below `n`. */
  function MaskBits(inp: seq<int>, dst: seq<int>, ndims: nat, n: nat): nat
    requires n <= ndims <= MaxBatchNdims && ndims <= |inp| && ndims <= |dst|
  {
    if n == 0 then 0
    else BitOr(MaskBits(inp, dst, ndims, n - 1), if IsBcast(inp, dst, n - 1) then DimBit(ndims, n - 1) else 0)
  }

  /**
   * Bit k of the mask is set exactly when k names one of the first `n`
   * dimensions as broadcast, counting bits from the last dimension.
   */
  lemma {:induction false} MaskBitsAt(inp: seq<int>, dst: seq<int>, ndims: nat, n: nat, k: nat)
    requires n <= ndims <= MaxBatchNdims && ndims <= |inp| && ndims <= |dst|
    ensures Bit(MaskBits(inp, dst, ndims, n), k) <==>
              k < ndims && ndims - 1 - k < n && IsBcast(inp, dst, ndims - 1 - k)
  {
    if n == 0 {
      ZeroBit(k);
    } else {
      MaskBitsAt(inp, dst, ndims, n - 1, k);
      var b := if IsBcast(inp, dst, n - 1) then DimBit(ndims, n - 1) else 0;
      OrBit(MaskBits(inp, dst, ndims, n - 1), b, k);
      if IsBcast(inp, dst, n - 1) { Pow2Bit(ndims - 1 - (n - 1), k); } else { ZeroBit(k); }
    }
  }

  /** The mask is zero exactly when nothing below `n` is broadcast. */
  lemma {:induction false} MaskBitsZero(inp: seq<int>, dst: seq<int>, ndims: nat, n: nat)
    requires n <= ndims <= MaxBatchNdims && ndims <= |inp| && ndims <= |dst|
    ensures MaskBits(inp, dst, ndims, n) == 0 <==> forall d :: 0 <= d < n ==> !IsBcast(inp, dst, d)
  {
    if n > 0 {
      MaskBitsZero(inp, dst, ndims, n - 1);
    }
  }

  /** The generalized offsets of the first `n` dimensions. */
  function GbOffs(batch: int, dst: seq<int>, n: nat): (r: seq<int>)
    requires n <= |dst|
    requires forall d :: 0 <= d < n ==> dst[d] != 0
    ensures |r| == n
  {
    if n == 0 then [] else GbOffs(batch, dst, n - 1) + [ChainDiv(batch, dst, n)]
  }

  lemma {:induction false} GbOffsAt(batch: int, dst: seq<int>, n: nat)
    requires n <= |dst|
    requires forall d :: 0 <= d < n ==> dst[d] != 0
    ensures forall d :: 0 <= d < n ==> GbOffs(batch, dst, n)[d] == ChainDiv(batch, dst, d + 1)
  {
    if n > 0 {
      GbOffsAt(batch, dst, n - 1);
    }
  }

  /** The scalar fields of the descriptor that `set_params` updates. */
  datatype Scalars = Scalars(mask: nat, first: int, last: int, prod1: int, bprod: int)

  /** One iteration of the `set_params` loop, on the scalar fields. */
  function Step(s: Scalars, inp: seq<int>, dst: seq<int>, ndims: nat, batch: int, d: nat): Scalars
    requires d < ndims <= MaxBatchNdims && ndims <= |inp| && ndims <= |dst| && dst[d] != 0
  {
    var b := IsBcast(inp, dst, d);
    var first := if b && s.first == -1 then d else s.first;
    var prod1 := if b && s.first == -1 && d == 0 then batch else s.prod1;
    Scalars(
      if b then BitOr(s.mask, DimBit(ndims, d)) else s.mask,
      first,
      if b then d else s.last,
      if first == -1 then TDiv(prod1, dst[d]) else prod1,
      if b then s.bprod * dst[d] else s.bprod)
  }

  /** The scalar fields after the first `n` iterations. */
  function Run(s: Scalars, inp: seq<int>, dst: seq<int>, ndims: nat, batch: int, n: nat): Scalars
    requires n <= ndims <= MaxBatchNdims && ndims <= |inp| && ndims <= |dst|
    requires forall d :: 0 <= d < n ==> dst[d] != 0
  {
    if n == 0 then s else Step(Run(s, inp, dst, ndims, batch, n - 1), inp, dst, ndims, batch, n - 1)
  }

  /** The mask after `n` iterations: the old mask with the bits of the broadcast dimensions ORed in. */
  lemma {:induction false} RunMask(s: Scalars, inp: seq<int>, dst: seq<int>, ndims: nat, batch: int, n: nat)
    requires n <= ndims <= MaxBatchNdims && ndims <= |inp| && ndims <= |dst|
    requires forall d :: 0 <= d < n ==> dst[d] != 0
    ensures Run(s, inp, dst, ndims, batch, n).mask == BitOr(s.mask, MaskBits(inp, dst, ndims, n))
  {
    if n == 0 {
      OrZero(s.mask);
    } else {
      RunMask(s, inp, dst, ndims, batch, n - 1);
      if IsBcast(inp, dst, n - 1) {
        OrAssoc(s.mask, MaskBits(inp, dst, ndims, n - 1), DimBit(ndims, n - 1));
      } else {
        OrZero(MaskBits(inp, dst, ndims, n - 1));
      }
    }
  }

  /** The first broadcast dimension is set once and then kept. */
  lemma {:induction false} RunFirst(s: Scalars, inp: seq<int>, dst: seq<int>, ndims: nat, batch: int, n: nat)
    requires n <= ndims <= MaxBatchNdims && ndims <= |inp| && ndims <= |dst|
    requires forall d :: 0 <= d < n ==> dst[d] != 0
    ensures Run(s, inp, dst, ndims, batch, n).first == if s.first != -1 then s.first else FirstBcast(inp, dst, n)
  {
    if n > 0 {
      RunFirst(s, inp, dst, ndims, batch, n - 1);
    }
  }

  /** The last broadcast dimension is the latest one seen. */
  lemma {:induction false} RunLast(s: Scalars, inp: seq<int>, dst: seq<int>, ndims: nat, batch: int, n: nat)
    requires n <= ndims <= MaxBatchNdims && ndims <= |inp| && ndims <= |dst|
    requires forall d :: 0 <= d < n ==> dst[d] != 0
    ensures Run(s, inp, dst, ndims, batch, n).last == if LastBcast(inp, dst, n) != -1 then LastBcast(inp, dst, n) else s.last
  {
    if n > 0 {
      RunLast(s, inp, dst, ndims, batch, n - 1);
    }
  }

  /** The broadcast product multiplies in the extent of every broadcast dimension. */
  lemma {:induction false} RunBcastProd(s: Scalars, inp: seq<int>, dst: seq<int>, ndims: nat, batch: int, n: nat)
    requires n <= ndims <= MaxBatchNdims && ndims <= |inp| && ndims <= |dst|
    requires forall d :: 0 <= d < n ==> dst[d] != 0
    ensures Run(s, inp, dst, ndims, batch, n).bprod == s.bprod * BcastProd(inp, dst, n)
  {
    if n > 0 {
      var r := Run(s, inp, dst, ndims, batch, n - 1);
      var f := if IsBcast(inp, dst, n - 1) then dst[n - 1] else 1;
      var p := BcastProd(inp, dst, n - 1);
      RunBcastProd(s, inp, dst, ndims, batch, n - 1);
      assert Run(s, inp, dst, ndims, batch, n).bprod == r.bprod * f by {
        StepBcastProd(r, inp, dst, ndims, batch, n - 1);
      }
      assert BcastProd(inp, dst, n) == p * f;
      MulAssoc(s.bprod, p, f);
    }
  }

  /** One step multiplies the broadcast product by the extent of a broadcast dimension. */
  lemma StepBcastProd(s: Scalars, inp: seq<int>, dst: seq<int>, ndims: nat, batch: int, d: nat)
    requires d < ndims <= MaxBatchNdims && ndims <= |inp| && ndims <= |dst| && dst[d] != 0
    ensures Step(s, inp, dst, ndims, batch, d).bprod == s.bprod * (if IsBcast(inp, dst, d) then dst[d] else 1)
  {
  }

  lemma MulAssoc(a: int, b: int, c: int)
    ensures (a * b) * c == a * (b * c)
  {
  }

  /**
   * Started from the batch, the product field is divided by every extent
   * before the first broadcast dimension (all of them when none is).
   */
  lemma {:induction false} RunFirstToLastProd(s: Scalars, inp: seq<int>, dst: seq<int>, ndims: nat, batch: int, n: nat)
    requires n <= ndims <= MaxBatchNdims && ndims <= |inp| && ndims <= |dst|
    requires forall d :: 0 <= d < n ==> dst[d] != 0
    requires s.prod1 == batch
    ensures Run(s, inp, dst, ndims, batch, n).prod1 ==
              if s.first != -1 then batch
              else if FirstBcast(inp, dst, n) == -1 then ChainDiv(batch, dst, n)
              else ChainDiv(batch, dst, FirstBcast(inp, dst, n))
  {
    if n > 0 {
      RunFirstToLastProd(s, inp, dst, ndims, batch, n - 1);
      RunFirst(s, inp, dst, ndims, batch, n - 1);
      RunFirst(s, inp, dst, ndims, batch, n);
    }
  }

  /** `brgemm_matmul_bcast_desc_t`. */
  class BcastDesc {
    var bcastMask: nat
    var firstBcastDim: int
    var lastBcastDim: int
    var acrossAllBatchDims: bool
    var firstToLastProd: int
    var bcastDimsProd: int
    var batchDims: array<int>
    var gbOff: array<int>

    ghost predicate Valid()
      reads this
    {
      batchDims.Length == MaxBatchNdims && gbOff.Length == MaxBatchNdims && batchDims != gbOff
    }

    function Current(): Scalars
      reads this
    {
      Scalars(bcastMask, firstBcastDim, lastBcastDim, firstToLastProd, bcastDimsProd)
    }

    constructor ()
      ensures Valid() && fresh(batchDims) && fresh(gbOff)
      ensures bcastMask == 0 && firstBcastDim == -1 && lastBcastDim == -1
      ensures !acrossAllBatchDims && firstToLastProd == 1 && bcastDimsProd == 1
      ensures forall d :: 0 <= d < MaxBatchNdims ==> batchDims[d] == 0 && gbOff[d] == 0
    {
      bcastMask, firstBcastDim, lastBcastDim := 0, -1, -1;
      acrossAllBatchDims, firstToLastProd, bcastDimsProd := false, 1, 1;
      batchDims := new int[MaxBatchNdims](_ => 0);
      gbOff := new int[MaxBatchNdims](_ => 0);
    }

    /** The broadcast bookkeeping of one iteration of the `set_params` loop. */
    method CountDim(inp: seq<int>, dst: seq<int>, ndims: nat, batch: int, d: nat)
      requires d < ndims <= MaxBatchNdims && ndims <= |inp| && ndims <= |dst| && dst[d] != 0
      modifies this`bcastMask, this`firstBcastDim, this`lastBcastDim, this`firstToLastProd, this`bcastDimsProd
      ensures Current() == Step(old(Current()), inp, dst, ndims, batch, d)
    {
      if dst[d] != 1 && inp[d] == 1 {
        // `(1 << (ndims - 1)) >> d`
        bcastMask := BitOr(bcastMask, DimBit(ndims, d));
        if firstBcastDim == -1 {
          firstBcastDim := d;
          if d == 0 {
            firstToLastProd := batch;
          }
        }
        lastBcastDim := d;
        bcastDimsProd := bcastDimsProd * dst[d];
      }
      if firstBcastDim == -1 {
        firstToLastProd := TDiv(firstToLastProd, dst[d]);
      }
    }

    /**
     * `set_params`. The fields are not reset first, so the new state is
     * stated relative to the old one.
     */
    method SetParams(inp: seq<int>, dst: seq<int>, ndims: nat, batch: int)
      requires Valid()
      requires ndims <= MaxBatchNdims && ndims <= |inp| && ndims <= |dst|
      requires forall d :: 0 <= d < ndims ==> dst[d] != 0
      modifies this`bcastMask, this`firstBcastDim, this`lastBcastDim, this`acrossAllBatchDims
      modifies this`firstToLastProd, this`bcastDimsProd, batchDims, gbOff
      ensures Valid() && batchDims == old(batchDims) && gbOff == old(gbOff)
      ensures batchDims[..ndims] == dst[..ndims] && batchDims[ndims..] == old(batchDims[ndims..])
      ensures gbOff[..ndims] == GbOffs(batch, dst, ndims) && gbOff[ndims..] == old(gbOff[ndims..])
      ensures Current() == Run(Scalars(old(bcastMask), old(firstBcastDim), old(lastBcastDim), batch, old(bcastDimsProd)),
                               inp, dst, ndims, batch, ndims)
      ensures acrossAllBatchDims == (batch > 1 ==> bcastMask > 0 && bcastDimsProd == batch)
    {
      firstToLastProd := batch;
      ghost var s0 := Current();
      var d := 0;
      while d < ndims
        invariant 0 <= d <= ndims
        invariant batchDims[..d] == dst[..d] && batchDims[ndims..] == old(batchDims[ndims..])
        invariant gbOff[..d] == GbOffs(batch, dst, d) && gbOff[ndims..] == old(gbOff[ndims..])
        invariant Current() == Run(s0, inp, dst, ndims, batch, d)
      {
        assert (if d == 0 then batch else gbOff[d - 1]) == ChainDiv(batch, dst, d) by {
          if d > 0 { assert gbOff[..d][d - 1] == GbOffs(batch, dst, d)[d - 1]; }
        }
        batchDims[d] := dst[d];
        gbOff[d] := TDiv(if d == 0 then batch else gbOff[d - 1], dst[d]);
        CountDim(inp, dst, ndims, batch, d);
        d := d + 1;
      }
      acrossAllBatchDims := batch > 1 ==> bcastMask > 0 && bcastDimsProd == batch;
    }
  }

  /**
   * On a freshly constructed descriptor, `set_params` leaves bit
   * (ndims - 1 - d) of the mask set exactly for the broadcast dimensions d,
   * and the descriptor covers all batch dimensions exactly when the batch is
   * trivial or some dimension is broadcast and the broadcast extents
   * multiply to the batch.
   */
  lemma FreshMask(inp: seq<int>, dst: seq<int>, ndims: nat, d: nat)
    requires d < ndims <= MaxBatchNdims && ndims <= |inp| && ndims <= |dst|
    ensures Bit(BitOr(0, MaskBits(inp, dst, ndims, ndims)), ndims - 1 - d) <==> IsBcast(inp, dst, d)
    ensures BitOr(0, MaskBits(inp, dst, ndims, ndims)) > 0 <==> exists j :: 0 <= j < ndims && IsBcast(inp, dst, j)
  {
    ZeroOr(MaskBits(inp, dst, ndims, ndims));
    MaskBitsAt(inp, dst, ndims, ndims, ndims - 1 - d);
    MaskBitsZero(inp, dst, ndims, ndims);
  }

  lemma {:induction false} OrZero(a: nat)
    ensures BitOr(a, 0) == a
    decreases a
  {
    if a != 0 {
      OrZero(a / 2);
    }
  }

  lemma OrHalves(a: nat, b: nat)
    ensures BitOr(a, b) / 2 == BitOr(a / 2, b / 2)
    ensures BitOr(a, b) % 2 == if a % 2 == 1 || b % 2 == 1 then 1 else 0
  {
  }

  lemma {:induction false} OrAssoc(a: nat, b: nat, c: nat)
    ensures BitOr(BitOr(a, b), c) == BitOr(a, BitOr(b, c))
    decreases a + b + c
  {
    if a != 0 || b != 0 || c != 0 {
      OrAssoc(a / 2, b / 2, c / 2);
      OrHalves(a, b);
      OrHalves(b, c);
      OrHalves(BitOr(a, b), c);
      OrHalves(a, BitOr(b, c));
      var ab, bc := BitOr(a, b), BitOr(b, c);
      var l, r := BitOr(ab, c), BitOr(a, bc);
      assert l / 2 == r / 2 by {
        calc {
          l / 2;
          BitOr(ab / 2, c / 2);
          BitOr(BitOr(a / 2, b / 2), c / 2);
          BitOr(a / 2, BitOr(b / 2, c / 2));
          BitOr(a / 2, bc / 2);
          r / 2;
        }
      }
      assert l % 2 == r % 2;
      assert l == 2 * (l / 2) + l % 2 && r == 2 * (r / 2) + r % 2;
      assert l == r;
    }
  }

  lemma {:induction false} ZeroOr(b: nat)
    ensures BitOr(0, b) == b
    decreases b
  {
    if b != 0 {
      ZeroOr(b / 2);
    }
  }

  /** Product of the extents `dst[i..n)`. */
  function DimsProd(dst: seq<int>, i: nat, n: nat): (r: int)
    requires i <= n <= |dst|
    requires forall d :: 0 <= d < n ==> dst[d] > 0
    ensures r > 0
    decreases n - i
  {
    if i == n then 1 else dst[i] * DimsProd(dst, i + 1, n)
  }

  /**
   * When the batch is the product of the batch extents, dividing it by the
   * first d extents leaves the product of the others. So `gb_off[d]`, the
   * batch divided by the extents up to and including d, is the product of
   * the extents after d: the row-major stride of dimension d.
   */
  lemma {:induction false} GbOffIsStride(dst: seq<int>, n: nat, d: nat)
    requires d <= n <= |dst|
    requires forall j :: 0 <= j < n ==> dst[j] > 0
    ensures ChainDiv(DimsProd(dst, 0, n), dst, d) == DimsProd(dst, d, n)
  {
    if d > 0 {
      GbOffIsStride(dst, n, d - 1);
      MulDiv(dst[d - 1], DimsProd(dst, d, n));
    }
  }

  /** `math::is_pow2`. */
  predicate IsPow2(k: int)
    decreases if k > 0 then k else 0
  {
    k == 1 || (k > 1 && k % 2 == 0 && IsPow2(k / 2))
  }

  /** The recursive power-of-two test accepts exactly the powers 2^n. */
  lemma {:induction false} IsPow2Iff(k: int)
    ensures IsPow2(k) <==> exists n: nat :: k == Pow2(n)
  {
    if IsPow2(k) {
      if k == 1 {
        assert k == Pow2(0);
      } else {
        IsPow2Iff(k / 2);
        var n: nat :| k / 2 == Pow2(n);
        assert k == Pow2(n + 1);
      }
    }
    if exists n: nat :: k == Pow2(n) {
      var n: nat :| k == Pow2(n);
      if n > 0 {
        assert k == 2 * Pow2(n - 1);
        IsPow2Iff(k / 2);
        assert k / 2 == Pow2(n - 1);
      } else {
        assert k == Pow2(0) == 1;
      }
    }
  }

  /** `lda_big_pow2`: a non-transposed A whose leading dimension is a power of two of at least 8192 bytes. */
  function LdaBigPow2(transposedA: bool, k: int, aDtSize: int): (r: bool)
    requires aDtSize > 0
    ensures r ==> !transposedA && exists n: nat :: k == Pow2(n)
    ensures r <==> !transposedA && IsPow2(k) && k >= 8192 / aDtSize
  {
    IsPow2Iff(k);
    !transposedA && IsPow2(k) && k >= TDiv(8192, aDtSize)
  }

  /** `maybe_low_brg_blocking`. */
  function MaybeLowBrgBlocking(mBlk: int, n: int, isRuntimeN: bool): (r: bool)
    ensures r ==> 37 <= mBlk <= 61 && mBlk % 2 == 1
    ensures r && mBlk < 48 ==> !isRuntimeN && n % 16 != 0
    ensures mBlk in {53, 59, 61} ==> r
  {
    var isPrime := mBlk in {37, 41, 43, 47, 53, 59, 61};
    // C `N % 16` is nonzero exactly when the Euclidean remainder is.
    var maybeLdbTail := !isRuntimeN && n % 16 != 0;
    isPrime && (mBlk < 48 ==> maybeLdbTail)
  }

  ghost predicate IsPrime(p: int) {
    p >= 2 && forall d :: 2 <= d < p ==> p % d != 0
  }

  /** `p` has no divisor in [d, p); decidable, so it evaluates on constants. */
  predicate NoDivisorFrom(p: nat, d: nat)
    requires d >= 1
    decreases p - d
  {
    d >= p || (p % d != 0 && NoDivisorFrom(p, d + 1))
  }

  lemma {:induction false} NoDivisorFromSound(p: nat, d: nat)
    requires d >= 1 && NoDivisorFrom(p, d)
    ensures forall e :: d <= e < p ==> p % e != 0
    decreases p - d
  {
    if d < p {
      NoDivisorFromSound(p, d + 1);
    }
  }

  /** The listed block sizes below 48 are prime. */
  lemma ListedArePrimeBelow48(p: nat)
    requires p in {37, 41, 43, 47}
    ensures IsPrime(p)
  {
    if p == 37 {
      assert NoDivisorFrom(37, 33); assert NoDivisorFrom(37, 29); assert NoDivisorFrom(37, 25); assert NoDivisorFrom(37, 21); assert NoDivisorFrom(37, 17); assert NoDivisorFrom(37, 13); assert NoDivisorFrom(37, 9); assert NoDivisorFrom(37, 5); assert NoDivisorFrom(37, 2);
    } else if p == 41 {
      assert NoDivisorFrom(41, 37); assert NoDivisorFrom(41, 33); assert NoDivisorFrom(41, 29); assert NoDivisorFrom(41, 25); assert NoDivisorFrom(41, 21); assert NoDivisorFrom(41, 17); assert NoDivisorFrom(41, 13); assert NoDivisorFrom(41, 9); assert NoDivisorFrom(41, 5); assert NoDivisorFrom(41, 2);
    } else if p == 43 {
      assert NoDivisorFrom(43, 39); assert NoDivisorFrom(43, 35); assert NoDivisorFrom(43, 31); assert NoDivisorFrom(43, 27); assert NoDivisorFrom(43, 23); assert NoDivisorFrom(43, 19); assert NoDivisorFrom(43, 15); assert NoDivisorFrom(43, 11); assert NoDivisorFrom(43, 7); assert NoDivisorFrom(43, 3); assert NoDivisorFrom(43, 2);
    } else {
      assert NoDivisorFrom(47, 43); assert NoDivisorFrom(47, 39); assert NoDivisorFrom(47, 35); assert NoDivisorFrom(47, 31); assert NoDivisorFrom(47, 27); assert NoDivisorFrom(47, 23); assert NoDivisorFrom(47, 19); assert NoDivisorFrom(47, 15); assert NoDivisorFrom(47, 11); assert NoDivisorFrom(47, 7); assert NoDivisorFrom(47, 3); assert NoDivisorFrom(47, 2);
    }
    NoDivisorFromSound(p, 2);
  }

  /** The listed block sizes above 48 are prime. */
  lemma ListedArePrimeAbove48(p: nat)
    requires p in {53, 59, 61}
    ensures IsPrime(p)
  {
    if p == 53 {
      assert NoDivisorFrom(53, 49); assert NoDivisorFrom(53, 45); assert NoDivisorFrom(53, 41); assert NoDivisorFrom(53, 37); assert NoDivisorFrom(53, 33); assert NoDivisorFrom(53, 29); assert NoDivisorFrom(53, 25); assert NoDivisorFrom(53, 21); assert NoDivisorFrom(53, 17); assert NoDivisorFrom(53, 13); assert NoDivisorFrom(53, 9); assert NoDivisorFrom(53, 5); assert NoDivisorFrom(53, 2);
    } else if p == 59 {
      assert NoDivisorFrom(59, 55); assert NoDivisorFrom(59, 51); assert NoDivisorFrom(59, 47); assert NoDivisorFrom(59, 43); assert NoDivisorFrom(59, 39); assert NoDivisorFrom(59, 35); assert NoDivisorFrom(59, 31); assert NoDivisorFrom(59, 27); assert NoDivisorFrom(59, 23); assert NoDivisorFrom(59, 19); assert NoDivisorFrom(59, 15); assert NoDivisorFrom(59, 11); assert NoDivisorFrom(59, 7); assert NoDivisorFrom(59, 3); assert NoDivisorFrom(59, 2);
    } else {
      assert NoDivisorFrom(61, 57); assert NoDivisorFrom(61, 53); assert NoDivisorFrom(61, 49); assert NoDivisorFrom(61, 45); assert NoDivisorFrom(61, 41); assert NoDivisorFrom(61, 37); assert NoDivisorFrom(61, 33); assert NoDivisorFrom(61, 29); assert NoDivisorFrom(61, 25); assert NoDivisorFrom(61, 21); assert NoDivisorFrom(61, 17); assert NoDivisorFrom(61, 13); assert NoDivisorFrom(61, 9); assert NoDivisorFrom(61, 5); assert NoDivisorFrom(61, 2);
    }
    NoDivisorFromSound(p, 2);
  }

  /** The seven block sizes of `maybe_low_brg_blocking` are prime. */
  lemma ListedArePrime(p: nat)
    requires p in {37, 41, 43, 47, 53, 59, 61}
    ensures IsPrime(p)
  {
    if p < 48 {
      ListedArePrimeBelow48(p);
    } else {
      ListedArePrimeAbove48(p);
    }
  }

  /**
   * The list of `maybe_low_brg_blocking` is exactly the primes from 32 to 64,
   * as its comment says: the test holds for a prime block in that window,
   * provided blocks below 48 also have an N tail.
   */
  lemma LowBrgBlockingPrimes(mBlk: int, n: int, isRuntimeN: bool)
    ensures MaybeLowBrgBlocking(mBlk, n, isRuntimeN) <==>
              32 <= mBlk <= 64 && IsPrime(mBlk) && (mBlk < 48 ==> !isRuntimeN && n % 16 != 0)
  {
    if mBlk in {37, 41, 43, 47, 53, 59, 61} {
      ListedArePrime(mBlk);
    } else if 32 <= mBlk <= 64 {
      var d := if mBlk % 2 == 0 then 2 else if mBlk % 3 == 0 then 3 else if mBlk % 5 == 0 then 5 else 7;
      assert mBlk % d == 0;
    }
  }

  /** The weights layouts `get_actual_LDB` tells apart. */
  datatype WeiTag = Acbd | PlainTag | OtherTag

  datatype LdbConf = LdbConf(
    weiTag: WeiTag, useBufferB: bool, isAmx: bool,
    bStride1: int, bDtSize: int, trBDtSize: int,
    weiNBlk: int, k: int, n: int)

  /**
   * `get_actual_LDB`: the leading dimension of B. The debug assertion of the
   * `acbd` case is the error outcome.
   */
  function GetActualLdb(c: LdbConf): (r: Result<int>)
    requires c.bDtSize != 0
    ensures r.Err? <==> c.weiTag == Acbd && !c.useBufferB && c.bDtSize != c.trBDtSize
    ensures r.Ok? && !(c.weiTag == Acbd && !c.useBufferB) && (c.isAmx || c.useBufferB || c.weiTag != PlainTag) ==> r.value == c.weiNBlk
    ensures r.Ok? && c.weiTag == Acbd && !c.useBufferB ==> r.value == TDiv(c.bStride1, c.bDtSize)
    ensures r.Ok? && c.weiTag == PlainTag && !c.isAmx && !c.useBufferB ==>
              r.value == if c.k == 1 then c.n else TDiv(c.bStride1, c.bDtSize)
  {
    var mdLdb := TDiv(c.bStride1, c.bDtSize);
    if c.weiTag == Acbd && !c.useBufferB then
      if c.bDtSize != c.trBDtSize then Err("assert b_dt_sz == tr_b_dt_sz") else Ok(mdLdb)
    else if c.isAmx || c.useBufferB || c.weiTag != PlainTag then Ok(c.weiNBlk)
    else Ok(if c.k == 1 then c.n else mdLdb)
  }

  /**
   * With K = 1 the plain layout of B is read as `ab` whatever strides the
   * user gave, so the leading dimension is N and does not depend on the
   * stride of dimension 1.
   */
  lemma LdbIgnoresStrideWhenKIsOne(c: LdbConf, s: int)
    requires c.bDtSize != 0
    requires c.weiTag == PlainTag && !c.isAmx && !c.useBufferB && c.k == 1
    ensures GetActualLdb(c) == GetActualLdb(c.(bStride1 := s)) == Ok(c.n)
  {
  }

  /** A blocked B (AMX, a B buffer or a non-plain layout, other than `acbd` without a buffer) takes its leading dimension from the block, not from the strides. */
  lemma LdbBlockedIgnoresStrides(c: LdbConf, s: int, d: int)
    requires c.bDtSize != 0 && d != 0
    requires !(c.weiTag == Acbd && !c.useBufferB) && (c.isAmx || c.useBufferB || c.weiTag != PlainTag)
    ensures GetActualLdb(c) == GetActualLdb(c.(bStride1 := s, bDtSize := d)) == Ok(c.weiNBlk)
  {
  }

  /**
   * Where the leading dimension comes from the memory descriptor, a byte
   * stride of `ldb` elements gives back `ldb`.
   */
  lemma LdbFromByteStride(c: LdbConf, ldb: nat)
    requires c.bDtSize > 0 && c.bStride1 == ldb * c.bDtSize
    requires (c.weiTag == Acbd && !c.useBufferB && c.bDtSize == c.trBDtSize) ||
             (c.weiTag == PlainTag && !c.isAmx && !c.useBufferB && c.k != 1)
    ensures GetActualLdb(c) == Ok(ldb)
  {
    DivModOf(ldb, 0, c.bDtSize);
  }
}
