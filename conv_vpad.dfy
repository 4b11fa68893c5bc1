/**
 * Virtual padding of the brgemm convolution (`exec_vpad`): for every output
 * block and kernel column, how many leading outputs read left padding
 * (top) and how many trailing outputs read right padding (bottom).
 */
module ConvVpad {
  import opened Common
  import ConvRange

  /** The number of leading outputs, `stride` columns apart from `iw`, that read a negative column. */
  function TopVpad(iw: int, sw: int): (r: nat)
    requires sw > 0
    ensures r == 0 <==> iw >= 0
    ensures iw + r * sw >= 0
    ensures r > 0 ==> iw + (r - 1) * sw < 0
  {
    if iw >= 0 then 0 else DivUp(Abs(iw), sw)
  }

  /** The number of trailing outputs whose span `[iw, iw + iiwL)` reaches past the input width `iwSize`. */
  function BottomVpad(iw: int, iiwL: int, iwSize: int, sw: int): (r: nat)
    requires sw > 0
    ensures r == 0 <==> iw + iiwL <= iwSize
    ensures iw + iiwL - r * sw <= iwSize
    ensures r > 0 ==> iw + iiwL - (r - 1) * sw > iwSize
  {
    if iw + iiwL <= iwSize then 0 else DivUp(iw + iiwL - iwSize, sw)
  }

  /** Output `j` of the row starts inside the input exactly when `j` is past the top padding. */
  lemma TopVpadCounts(iw: int, sw: int, j: nat)
    requires sw > 0
    ensures iw + j * sw >= 0 <==> j >= TopVpad(iw, sw)
  {
    ConvRange.LeftCut(iw, sw, TopVpad(iw, sw), j);
  }

  /** The output `t` places before the last one ends inside the input exactly when `t` covers the bottom padding. */
  lemma BottomVpadCounts(iw: int, iiwL: int, iwSize: int, sw: int, t: nat)
    requires sw > 0
    ensures iw + iiwL - t * sw <= iwSize <==> t >= BottomVpad(iw, iiwL, iwSize, sw)
  {
    ConvRange.RightCut(iw + iiwL - iwSize, sw, BottomVpad(iw, iiwL, iwSize, sw), t);
  }

  /** Top and bottom padding can both be present only when the span is wider than the input. */
  lemma VpadExclusive(iw: int, iiwL: int, iwSize: int, sw: int)
    requires sw > 0 && iiwL <= iwSize
    ensures TopVpad(iw, sw) == 0 || BottomVpad(iw, iiwL, iwSize, sw) == 0
  {
  }

  /** The `jcp` fields the precomputation reads. */
  datatype VpadGeom = VpadGeom(
    ow: int,        // jcp.ow
    owBlock: int,   // jcp.ow_block
    nbOw: nat,      // jcp.nb_ow
    m: int,         // jcp.M, outputs of a full block
    mTail: int,     // jcp.M_tail, outputs of the tail block
    sw: int,        // jcp.stride_w
    lp: int,        // jcp.l_pad
    dw: int,        // jcp.dilate_w + 1
    kw: nat,        // jcp.kw
    iw: int)        // jcp.iw

  /** Outputs of block `owb`. */
  function BlockLen(g: VpadGeom, owb: int): int {
    if g.ow - owb * g.owBlock < g.owBlock then g.mTail else g.m
  }

  /** The first input column block `owb` reads at kernel column 0. */
  function IiwB(g: VpadGeom, owb: int): int {
    owb * g.owBlock * g.sw - g.lp
  }

  /** The width of input the outputs of block `owb` span at one kernel column. */
  function IiwL(g: VpadGeom, owb: int): int {
    ((owb * g.owBlock + BlockLen(g, owb) - 1) * g.sw - g.lp + 1) - IiwB(g, owb)
  }

  function TopAt(g: VpadGeom, owb: int, kw: int): nat
    requires g.sw > 0
  {
    TopVpad(IiwB(g, owb) + kw * g.dw, g.sw)
  }

  function BottomAt(g: VpadGeom, owb: int, kw: int): nat
    requires g.sw > 0
  {
    BottomVpad(IiwB(g, owb) + kw * g.dw, IiwL(g, owb), g.iw, g.sw)
  }

  /** The two assertions of the precomputation hold for block `owb`. */
  ghost predicate BlockOk(g: VpadGeom, owb: int)
    requires g.sw > 0
  {
    0 <= BlockLen(g, owb) <= g.owBlock &&
    forall kw :: 0 <= kw < g.kw ==> TopAt(g, owb, kw) == 0 || BottomAt(g, owb, kw) == 0
  }

  /** A block of at most `ow_block` outputs never needs padding on both sides when a block fits in the input. */
  lemma BlockOkWhenNarrow(g: VpadGeom, owb: int)
    requires g.sw > 0 && 0 <= BlockLen(g, owb) <= g.owBlock
    requires IiwL(g, owb) <= g.iw
    ensures BlockOk(g, owb)
  {
    forall kw | 0 <= kw < g.kw
      ensures TopAt(g, owb, kw) == 0 || BottomAt(g, owb, kw) == 0
    {
      VpadExclusive(IiwB(g, owb) + kw * g.dw, IiwL(g, owb), g.iw, g.sw);
    }
  }

  /** Slot `i` of the flattened `nb_ow * kw` tables holds these values. */
  predicate SlotOk(g: VpadGeom, tops: array<int>, bottoms: array<int>, i: nat)
    requires g.sw > 0 && g.kw > 0
    reads tops, bottoms
  {
    i < tops.Length && i < bottoms.Length &&
    tops[i] == TopAt(g, i / g.kw, i % g.kw) && bottoms[i] == BottomAt(g, i / g.kw, i % g.kw)
  }

  /** Stores the pair of kernel column `kw` of block `owb` at its flattened slot. */
  method WriteSlot(g: VpadGeom, tops: array<int>, bottoms: array<int>, owb: nat, kw: nat, top: int, bottom: int)
    requires g.sw > 0 && kw < g.kw && owb < g.nbOw
    requires tops.Length == g.nbOw * g.kw && bottoms.Length == g.nbOw * g.kw && tops != bottoms
    requires top == TopAt(g, owb, kw) && bottom == BottomAt(g, owb, kw)
    requires owb * g.kw + kw < tops.Length
    requires forall i :: 0 <= i < owb * g.kw + kw ==> SlotOk(g, tops, bottoms, i)
    modifies tops, bottoms
    ensures forall i :: 0 <= i < owb * g.kw + kw + 1 ==> SlotOk(g, tops, bottoms, i)
  {
    DivModOf(owb, kw, g.kw);
    var j := owb * g.kw + kw;
    tops[j] := top;
    bottoms[j] := bottom;
    assert SlotOk(g, tops, bottoms, j);
  }

  /** The kernel-column loop for one output block. */
  method FillBlock(g: VpadGeom, tops: array<int>, bottoms: array<int>, owb: nat) returns (ok: bool)
    requires g.sw > 0 && g.kw > 0 && owb < g.nbOw
    requires tops.Length == g.nbOw * g.kw && bottoms.Length == g.nbOw * g.kw && tops != bottoms
    requires forall i :: 0 <= i < owb * g.kw ==> SlotOk(g, tops, bottoms, i)
    modifies tops, bottoms
    ensures ok <==> forall kw :: 0 <= kw < g.kw ==> TopAt(g, owb, kw) == 0 || BottomAt(g, owb, kw) == 0
    ensures ok ==> forall i :: 0 <= i < (owb + 1) * g.kw ==> SlotOk(g, tops, bottoms, i)
  {
    MulLe(owb + 1, g.nbOw, g.kw);
    var iiwB := IiwB(g, owb);
    var iiwL := IiwL(g, owb);
    var kw := 0;
    while kw < g.kw
      invariant 0 <= kw <= g.kw
      invariant forall k :: 0 <= k < kw ==> TopAt(g, owb, k) == 0 || BottomAt(g, owb, k) == 0
      invariant forall i :: 0 <= i < owb * g.kw + kw ==> SlotOk(g, tops, bottoms, i)
    {
      var iw := iiwB + kw * g.dw;
      var topVpad := TopVpad(iw, g.sw);
      var bottomVpad := BottomVpad(iw, iiwL, g.iw, g.sw);
      if !(topVpad == 0 || bottomVpad == 0) {
        assert TopAt(g, owb, kw) == topVpad && BottomAt(g, owb, kw) == bottomVpad;
        return false;
      }
      WriteSlot(g, tops, bottoms, owb, kw, topVpad, bottomVpad);
      kw := kw + 1;
    }
    assert (owb + 1) * g.kw == owb * g.kw + g.kw;
    return true;
  }

  /** The output-block loop of the precomputation, over tables already sized `nb_ow * kw`. */
  method FillTables(g: VpadGeom, tops: array<int>, bottoms: array<int>) returns (r: Outcome)
    requires g.sw > 0 && g.kw > 0
    requires tops.Length == g.nbOw * g.kw && bottoms.Length == g.nbOw * g.kw && tops != bottoms
    modifies tops, bottoms
    ensures r.Done? <==> forall owb :: 0 <= owb < g.nbOw ==> BlockOk(g, owb)
    ensures r.Done? ==> forall i :: 0 <= i < g.nbOw * g.kw ==> SlotOk(g, tops, bottoms, i)
  {
    var owb := 0;
    while owb < g.nbOw
      invariant 0 <= owb <= g.nbOw
      invariant forall b :: 0 <= b < owb ==> BlockOk(g, b)
      invariant forall i :: 0 <= i < owb * g.kw ==> SlotOk(g, tops, bottoms, i)
    {
      var owL := BlockLen(g, owb);
      if !(0 <= owL && owL <= g.owBlock) {
        assert !BlockOk(g, owb);
        return Fail("assert(0 <= ow_l && ow_l <= jcp.ow_block)");
      }
      var ok := FillBlock(g, tops, bottoms, owb);
      if !ok {
        assert !BlockOk(g, owb);
        return Fail("assert(top_vpad == 0 || bottom_vpad == 0)");
      }
      owb := owb + 1;
    }
    return Done;
  }

  /**
   * The `exec_vpad` precomputation of `owb_kw_top_vpads` and
   * `owb_kw_bottom_vpads`; an assertion of the loop that does not hold is
   * an error.
   */
  method PrecomputeVpads(g: VpadGeom) returns (r: Result<(seq<int>, seq<int>)>)
    requires g.sw > 0 && g.kw > 0
    ensures r.Ok? <==> forall owb :: 0 <= owb < g.nbOw ==> BlockOk(g, owb)
    ensures r.Ok? ==> |r.value.0| == g.nbOw * g.kw && |r.value.1| == g.nbOw * g.kw
    ensures r.Ok? ==> forall i :: 0 <= i < g.nbOw * g.kw ==>
              r.value.0[i] == TopAt(g, i / g.kw, i % g.kw) && r.value.1[i] == BottomAt(g, i / g.kw, i % g.kw)
  {
    var tops := new int[g.nbOw * g.kw](_ => 0);
    var bottoms := new int[g.nbOw * g.kw](_ => 0);
    var outcome := FillTables(g, tops, bottoms);
    if outcome.Fail? {
      return Err(outcome.reason);
    }
    forall i | 0 <= i < g.nbOw * g.kw
      ensures tops[..][i] == TopAt(g, i / g.kw, i % g.kw) && bottoms[..][i] == BottomAt(g, i / g.kw, i % g.kw)
    {
      assert SlotOk(g, tops, bottoms, i);
    }
    r := Ok((tops[..], bottoms[..]));
  }
}
