/**
 * Output-width range clipping of the brgemm convolution: for one block of
 * output columns and one kernel column, which outputs read real input
 * columns and which fall into the left or right padding.
 */
module ConvRange {
  import opened Common

  /** The convolution geometry `get_ow_range` and `get_kw_range` read from `jcp`. */
  datatype OwGeom = OwGeom(
    ow: int,        // jcp.ow, the output width
    owBlock: int,   // jcp.ow_block
    owTail: int,    // jcp.ow_tail
    iw: int,        // jcp.iw, the input width
    sw: int,        // jcp.stride_w
    lp: int,        // jcp.l_pad
    dw: int,        // jcp.dilate_w + 1
    kw: int)        // jcp.kw, the kernel width

  /** The number of outputs of the block starting at `ow`: the tail block is shorter. */
  function BlockM(g: OwGeom, ow: int): int {
    if g.ow - ow < g.owBlock then g.owTail else g.owBlock
  }

  /** The input column that output `o` reads under kernel column `kw`. */
  function IwAt(g: OwGeom, ow: int, kw: int, o: int): int {
    (ow * g.sw - g.lp) + kw * g.dw + (o - ow) * g.sw
  }

  /** Output `o` of the block reads a real input column under kernel column `kw`. */
  predicate InInput(g: OwGeom, ow: int, kw: int, o: int) {
    0 <= IwAt(g, ow, kw, o) < g.iw
  }

  /** Some output of the block reads real input under `kw`. */
  ghost predicate NonEmpty(g: OwGeom, ow: int, kw: int) {
    exists o :: ow <= o < ow + BlockM(g, ow) && InInput(g, ow, kw, o)
  }

  /** Every output of the (non-empty) block reads real input under `kw`. */
  ghost predicate Full(g: OwGeom, ow: int, kw: int) {
    BlockM(g, ow) > 0 && forall o :: ow <= o < ow + BlockM(g, ow) ==> InInput(g, ow, kw, o)
  }

  /** Outputs left of `ow + kerL` read left padding, with `kerL` from `div_up`. */
  lemma LeftCut(a: int, sw: int, kerL: int, j: int)
    requires sw > 0 && j >= 0
    requires kerL == if a < 0 then DivUp(-a, sw) else 0
    ensures a + j * sw >= 0 <==> j >= kerL
  {
    if a < 0 {
      if j >= kerL {
        MulLe(kerL, j, sw);
      } else {
        MulLe(j, kerL - 1, sw);
      }
    } else {
      MulLe(0, j, sw);
    }
  }

  /** Outputs at or right of `last - kerR` read right padding, with `kerR` from `div_up`. */
  lemma RightCut(rp: int, sw: int, kerR: int, t: int)
    requires sw > 0 && t >= 0
    requires kerR == if rp > 0 then DivUp(rp, sw) else 0
    ensures t * sw >= rp <==> t >= kerR
  {
    if rp > 0 {
      if t >= kerR {
        MulLe(kerR, t, sw);
      } else {
        MulLe(t, kerR - 1, sw);
      }
    } else {
      MulLe(0, t, sw);
    }
  }

  /** Output `o` of a block of `m` reads real input exactly between the two cuts. */
  lemma CutsAt(g: OwGeom, ow: int, kw: int, o: int, m: int, kerL: int, kerR: int)
    requires g.sw > 0 && 0 <= o - ow < m
    requires var a := ow * g.sw - g.lp + kw * g.dw;
             kerL == if a < 0 then DivUp(-a, g.sw) else 0
    requires var rp := ow * g.sw - g.lp + kw * g.dw + (m - 1) * g.sw - g.iw + 1;
             kerR == if rp > 0 then DivUp(rp, g.sw) else 0
    ensures InInput(g, ow, kw, o) <==> kerL <= o - ow <= m - 1 - kerR
  {
    var a := ow * g.sw - g.lp + kw * g.dw;
    var rp := a + (m - 1) * g.sw - g.iw + 1;
    var j := o - ow;
    LeftCut(a, g.sw, kerL, j);
    RightCut(rp, g.sw, kerR, m - 1 - j);
    MulSub(m - 1, j, g.sw);
  }

  /**
   * `get_ow_range`: the outputs [owS, owF) of the block at `ow` whose input
   * column under kernel column `kw` is inside the input row.
   */
  method GetOwRange(g: OwGeom, ow: int, kw: int) returns (owS: int, owF: int)
    requires g.sw > 0
    ensures owS <= owF <= ow + BlockM(g, ow)
    ensures BlockM(g, ow) >= 0 ==> ow <= owS
    ensures forall o :: ow <= o < ow + BlockM(g, ow) ==> (owS <= o < owF <==> InInput(g, ow, kw, o))
    ensures owS < owF <==> NonEmpty(g, ow, kw)
    ensures owS < owF && owF - owS == BlockM(g, ow) <==> Full(g, ow, kw)
  {
    var m := if g.ow - ow < g.owBlock then g.owTail else g.owBlock;
    var iiw := ow * g.sw - g.lp;
    var iwLp := iiw + kw * g.dw;
    var iwRp := iwLp + (m - 1) * g.sw - g.iw + 1;
    ghost var a := iwLp;
    owS := ow;
    var kerIdx := 0;
    if iwLp < 0 {
      iwLp := Abs(iwLp);
      kerIdx := kerIdx + DivUp(iwLp, g.sw);
      owS := owS + kerIdx;
    }
    ghost var kerL := kerIdx;
    if iwRp > 0 {
      kerIdx := kerIdx + DivUp(iwRp, g.sw);
    }
    ghost var kerR := kerIdx - kerL;
    owF := owS + (m - kerIdx);
    owS := Min(owS, ow + m);
    owF := Min(Max(owF, owS), ow + m);
    forall o | ow <= o < ow + m
      ensures owS <= o < owF <==> InInput(g, ow, kw, o)
    {
      CutsAt(g, ow, kw, o, m, kerL, kerR);
    }
    if owS < owF {
      assert InInput(g, ow, kw, owS);
    }
    if Full(g, ow, kw) {
      assert InInput(g, ow, kw, ow) && InInput(g, ow, kw, ow + m - 1);
    }
  }

  /** The first (`first`) or last kernel column below `n` that is non-empty, or full with `full`; -1 if none. */
  ghost function Pick(g: OwGeom, ow: int, full: bool, first: bool, n: nat): (r: int)
    ensures -1 <= r < n
    ensures r == -1 <==> forall kw :: 0 <= kw < n ==> !(if full then Full(g, ow, kw) else NonEmpty(g, ow, kw))
    ensures r >= 0 ==> (if full then Full(g, ow, r) else NonEmpty(g, ow, r))
    ensures r >= 0 && first ==> forall kw :: 0 <= kw < r ==> !(if full then Full(g, ow, kw) else NonEmpty(g, ow, kw))
    ensures r >= 0 && !first ==> forall kw :: r < kw < n ==> !(if full then Full(g, ow, kw) else NonEmpty(g, ow, kw))
  {
    if n == 0 then -1
    else
      var prev := Pick(g, ow, full, first, n - 1);
      var here := if full then Full(g, ow, n - 1) else NonEmpty(g, ow, n - 1);
      if first then (if prev != -1 then prev else if here then n - 1 else -1)
      else (if here then n - 1 else prev)
  }

  lemma FullIsNonEmpty(g: OwGeom, ow: int, kw: int)
    requires Full(g, ow, kw)
    ensures NonEmpty(g, ow, kw)
  {
    assert InInput(g, ow, kw, ow);
  }

  /** The bounds `GetKwRange` returns are the four `KwRange` gives. */
  lemma GetKwRangeIs(g: OwGeom, ow: int, kwS: int, kwFullS: int, kwFullF: int, kwF: int)
    requires g.sw > 0 && g.kw >= 0
    requires Pick(g, ow, false, false, g.kw) == -1 ==> kwS == 0 && kwF == 0
    requires Pick(g, ow, false, false, g.kw) != -1 ==>
               kwS == Pick(g, ow, false, true, g.kw) && kwF == Pick(g, ow, false, false, g.kw) + 1
    requires Pick(g, ow, true, false, g.kw) == -1 ==> kwFullS == kwF && kwFullF == kwF
    requires Pick(g, ow, true, false, g.kw) != -1 ==>
               kwFullS == Pick(g, ow, true, true, g.kw) && kwFullF == Pick(g, ow, true, false, g.kw) + 1
    ensures (kwS, kwFullS, kwFullF, kwF) == KwRange(g, ow)
  {
  }

  /** The four kw bounds `get_kw_range` computes, given by the first and last non-empty and full columns. */
  ghost function KwRange(g: OwGeom, ow: int): (int, int, int, int)
    requires g.sw > 0 && g.kw >= 0
  {
    var kwS := if Pick(g, ow, false, false, g.kw) == -1 then 0 else Pick(g, ow, false, true, g.kw);
    var kwF := if Pick(g, ow, false, false, g.kw) == -1 then 0 else Pick(g, ow, false, false, g.kw) + 1;
    if Pick(g, ow, true, false, g.kw) == -1 then (kwS, kwF, kwF, kwF)
    else (kwS, Pick(g, ow, true, true, g.kw), Pick(g, ow, true, false, g.kw) + 1, kwF)
  }

  /** The four bounds are ordered and lie in [0, KW]. */
  lemma KwRangeOrdered(g: OwGeom, ow: int)
    requires g.sw > 0 && g.kw >= 0
    ensures var (kwS, kwFullS, kwFullF, kwF) := KwRange(g, ow);
            0 <= kwS <= kwFullS <= kwFullF <= kwF <= g.kw
  {
    var ff, ft := Pick(g, ow, false, false, g.kw), Pick(g, ow, false, true, g.kw);
    var tf, tt := Pick(g, ow, true, false, g.kw), Pick(g, ow, true, true, g.kw);
    if tf != -1 {
      FullIsNonEmpty(g, ow, tf);
      FullIsNonEmpty(g, ow, tt);
      assert ff != -1 && ft != -1;
    }
  }

  /**
   * `get_kw_range`: the kernel columns [kwS, kwF) with some valid output and,
   * inside them, the columns [kwFullS, kwFullF) where every output is valid.
   */
  method GetKwRange(g: OwGeom, ow: int) returns (kwS: int, kwFullS: int, kwFullF: int, kwF: int)
    requires g.sw > 0 && g.kw >= 0
    ensures kwS <= kwFullS <= kwFullF <= kwF
    ensures Pick(g, ow, false, false, g.kw) == -1 ==> kwS == 0 && kwF == 0
    ensures Pick(g, ow, false, false, g.kw) != -1 ==>
              kwS == Pick(g, ow, false, true, g.kw) && kwF == Pick(g, ow, false, false, g.kw) + 1
    ensures Pick(g, ow, true, false, g.kw) == -1 ==> kwFullS == kwF && kwFullF == kwF
    ensures Pick(g, ow, true, false, g.kw) != -1 ==>
              kwFullS == Pick(g, ow, true, true, g.kw) && kwFullF == Pick(g, ow, true, false, g.kw) + 1
  {
    var m := if g.ow - ow < g.owBlock then g.owTail else g.owBlock;
    kwS, kwFullS, kwFullF, kwF := -1, -1, -1, -1;
    var kw := 0;
    while kw < g.kw
      invariant 0 <= kw <= g.kw
      invariant kwS == Pick(g, ow, false, true, kw) && kwF == Pick(g, ow, false, false, kw) + (if kwS == -1 then 0 else 1)
      invariant kwFullS == Pick(g, ow, true, true, kw)
      invariant kwFullF == Pick(g, ow, true, false, kw) + (if kwFullS == -1 then 0 else 1)
    {
      var owS, owF := GetOwRange(g, ow, kw);
      if owS < owF {
        if kwS == -1 {
          kwS := kw;
        }
        kwF := kw + 1;
        if owF - owS == m {
          if kwFullS == -1 {
            kwFullS := kw;
          }
          kwFullF := kw + 1;
        }
      }
      kw := kw + 1;
    }
    if kwF == -1 {
      kwS := 0;
      kwF := 0;
    }
    if kwFullF == -1 {
      kwFullS := kwF;
      kwFullF := kwF;
    }
    if kwFullS != kwF || Pick(g, ow, true, false, g.kw) != -1 {
      ghost var fs := Pick(g, ow, true, true, g.kw);
      ghost var fl := Pick(g, ow, true, false, g.kw);
      if fl != -1 {
        FullIsNonEmpty(g, ow, fs);
        FullIsNonEmpty(g, ow, fl);
      }
    }
  }

  /**
   * The kernel range `[s, f)` of one spatial dimension (depth or height) at
   * output position `o`: `s = div_up(max(0, -i), D)` and
   * `f = K - div_up(max(0, i - I + (K - 1) * D + 1), D)` with `i = o * S - P`.
   */
  function KRange(o: int, stride: int, pad: int, dil: int, k: int, size: int): (int, int)
    requires dil > 0
  {
    var i := o * stride - pad;
    (DivUp(Max(0, -i), dil), k - DivUp(Max(0, i - size + (k - 1) * dil + 1), dil))
  }

  /** Kernel index `kk` is inside `KRange` exactly when its input position is inside the input. */
  lemma KRangeMeaning(o: int, stride: int, pad: int, dil: int, k: int, size: int, kk: int)
    requires dil > 0 && 0 <= kk < k
    ensures var (s, f) := KRange(o, stride, pad, dil, k, size);
            s <= kk < f <==> 0 <= o * stride - pad + kk * dil < size
  {
    KRangeAt(o * stride - pad, dil, k, size, kk);
  }

  /** `KRangeMeaning` at input position `i` of kernel index 0. */
  lemma KRangeAt(i: int, dil: int, k: int, size: int, kk: int)
    requires dil > 0 && 0 <= kk < k
    ensures DivUp(Max(0, -i), dil) <= kk < k - DivUp(Max(0, i - size + (k - 1) * dil + 1), dil) <==>
            0 <= i + kk * dil < size
  {
    var rp := i - size + (k - 1) * dil + 1;
    LeftCutMax(i, dil, kk);
    RightCutMax(rp, dil, k - 1 - kk);
    MulSub(k - 1, kk, dil);
  }

  /** `LeftCut` with `kerL` written as the source computes it. */
  lemma LeftCutMax(a: int, sw: int, j: int)
    requires sw > 0 && j >= 0
    ensures a + j * sw >= 0 <==> j >= DivUp(Max(0, -a), sw)
  {
    LeftCut(a, sw, DivUp(Max(0, -a), sw), j);
  }

  /** `RightCut` with `kerR` written as the source computes it. */
  lemma RightCutMax(rp: int, sw: int, t: int)
    requires sw > 0 && t >= 0
    ensures t * sw >= rp <==> t >= DivUp(Max(0, rp), sw)
  {
    RightCut(rp, sw, DivUp(Max(0, rp), sw), t);
  }

  /** `(a - b) * c == a * c - b * c` */
  lemma MulSub(a: int, b: int, c: int)
    ensures (a - b) * c == a * c - b * c
  {
  }
}
