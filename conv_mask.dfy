/**
 * The M mask of a brgemm convolution descriptor (`bd_mask`): which rows of
 * the virtual M dimension are real outputs when output rows are blocked
 * together with `oskip` filler slots between them.
 */
module ConvMask {
  import opened Common

  /** The sizes `add_brg_descriptor` reads when it builds the mask. */
  datatype MaskGeom = MaskGeom(
    smSize: nat,    // vbrgM, the length of the mask
    vM: int,        // vM, the number of real output rows
    ohBlock: nat,   // jcp.oh_block
    owBlock: nat,   // jcp.ow_block
    oskip: nat)     // jcp.oskip

  /** Slots per blocked output row: `ow_block` real slots, then `oskip` filler slots. */
  function RowWidth(g: MaskGeom): nat {
    g.owBlock + g.oskip
  }

  /**
   * The mask entry at slot `i` under output-spatial blocking: slot `c` of
   * row `h` is 1 when it is a real slot and the row starts before `vM`
   * real outputs have been counted; filler and trailing slots are 0.
   */
  function MaskAt(g: MaskGeom, i: nat): int {
    var w := RowWidth(g);
    if w == 0 || i / w >= g.ohBlock then 0
    else if i % w >= g.owBlock then 0
    else if (i / w) * g.owBlock < g.vM then 1 else 0
  }

  /** A row of the mask: its real slots all hold the row's flag, its filler slots hold 0. */
  lemma MaskRow(g: MaskGeom, h: nat, c: nat)
    requires h < g.ohBlock && c < RowWidth(g)
    ensures MaskAt(g, h * RowWidth(g) + c) == if c < g.owBlock && h * g.owBlock < g.vM then 1 else 0
  {
    DivModOf(h, c, RowWidth(g));
  }

  /** Every slot past the last blocked row is 0. */
  lemma MaskTail(g: MaskGeom, i: nat)
    requires i >= g.ohBlock * RowWidth(g)
    ensures MaskAt(g, i) == 0
  {
    var w := RowWidth(g);
    if w > 0 {
      var q := i / w;
      DivModOf(q, i % w, w);
      if q < g.ohBlock {
        MulLe(q + 1, g.ohBlock, w);
      }
    }
  }

  /** Once a row is masked out, every later row is masked out too. */
  lemma MaskRowsMonotone(g: MaskGeom, h1: nat, h2: nat, c: nat)
    requires h1 <= h2 < g.ohBlock && c < g.owBlock
    ensures MaskAt(g, h1 * RowWidth(g) + c) >= MaskAt(g, h2 * RowWidth(g) + c)
  {
    MaskRow(g, h1, c);
    MaskRow(g, h2, c);
    MulLe(h1, h2, g.owBlock);
  }

  /** One row `hh` of the blocked mask: its `ow_block` real slots, then its `oskip` filler slots. */
  method FillBlockedRow(a: array<int>, g: MaskGeom, hh: nat, ibrgM0: nat, iM0: int) returns (ibrgM: nat, iM: int)
    requires a.Length == g.smSize && hh < g.ohBlock
    requires ibrgM0 == Min(hh * RowWidth(g), g.smSize)
    requires hh * RowWidth(g) <= g.smSize ==> (iM0 < g.vM <==> hh * g.owBlock < g.vM)
    requires hh * RowWidth(g) <= g.smSize && iM0 < g.vM ==> iM0 == hh * g.owBlock
    requires forall i :: 0 <= i < ibrgM0 ==> a[i] == MaskAt(g, i)
    modifies a
    ensures ibrgM == Min((hh + 1) * RowWidth(g), g.smSize)
    ensures (hh + 1) * RowWidth(g) <= g.smSize ==> (iM < g.vM <==> (hh + 1) * g.owBlock < g.vM)
    ensures (hh + 1) * RowWidth(g) <= g.smSize && iM < g.vM ==> iM == (hh + 1) * g.owBlock
    ensures forall i :: 0 <= i < ibrgM ==> a[i] == MaskAt(g, i)
  {
    var w := RowWidth(g);
    ibrgM, iM := ibrgM0, iM0;
    var mMask := if iM >= g.vM then 0 else 1;
    var ww := 0;
    while ww < g.owBlock && ibrgM < g.smSize
      invariant 0 <= ww <= g.owBlock
      invariant ibrgM == Min(hh * w + ww, g.smSize)
      invariant iM == iM0 + ww * mMask
      invariant forall i :: 0 <= i < ibrgM ==> a[i] == MaskAt(g, i)
    {
      MaskRow(g, hh, ww);
      a[ibrgM] := mMask;
      ww, ibrgM, iM := ww + 1, ibrgM + 1, iM + mMask;
    }
    assert ibrgM == Min(hh * w + g.owBlock, g.smSize);
    assert (hh + 1) * w <= g.smSize ==> ww == g.owBlock;
    var kk := 0;
    while kk < g.oskip && ibrgM < g.smSize
      invariant 0 <= kk <= g.oskip
      invariant ibrgM == Min(hh * w + g.owBlock + kk, g.smSize)
      invariant forall i :: 0 <= i < ibrgM ==> a[i] == MaskAt(g, i)
    {
      MaskRow(g, hh, g.owBlock + kk);
      a[ibrgM] := 0;
      kk, ibrgM := kk + 1, ibrgM + 1;
    }
    assert (hh + 1) * w == hh * w + w;
    assert (hh + 1) * g.owBlock == hh * g.owBlock + g.owBlock;
  }

  /** The output-spatial-blocked fill of `add_brg_descriptor`: the rows, then the tail. */
  method FillBlocked(a: array<int>, g: MaskGeom)
    requires a.Length == g.smSize
    modifies a
    ensures forall i :: 0 <= i < a.Length ==> a[i] == MaskAt(g, i)
  {
    var w := RowWidth(g);
    var ibrgM := 0;
    var iM := 0;
    var hh := 0;
    while hh < g.ohBlock
      invariant 0 <= hh <= g.ohBlock
      invariant ibrgM == Min(hh * w, g.smSize)
      invariant hh * w <= g.smSize ==> (iM < g.vM <==> hh * g.owBlock < g.vM)
      invariant hh * w <= g.smSize && iM < g.vM ==> iM == hh * g.owBlock
      invariant forall i :: 0 <= i < ibrgM ==> a[i] == MaskAt(g, i)
    {
      ibrgM, iM := FillBlockedRow(a, g, hh, ibrgM, iM);
      hh := hh + 1;
    }
    FillTail(a, g, ibrgM);
  }

  /** The tail loop: the slots past the last row are cleared. */
  method FillTail(a: array<int>, g: MaskGeom, ibrgM0: nat)
    requires a.Length == g.smSize && Min(g.ohBlock * RowWidth(g), g.smSize) <= ibrgM0 <= g.smSize
    requires forall i :: 0 <= i < ibrgM0 ==> a[i] == MaskAt(g, i)
    modifies a
    ensures forall i :: 0 <= i < a.Length ==> a[i] == MaskAt(g, i)
  {
    var ibrgM := ibrgM0;
    while ibrgM < g.smSize
      invariant ibrgM0 <= ibrgM <= g.smSize
      invariant forall i :: 0 <= i < ibrgM ==> a[i] == MaskAt(g, i)
    {
      MaskTail(g, ibrgM);
      a[ibrgM] := 0;
      ibrgM := ibrgM + 1;
    }
  }

  /**
   * The `bd_mask` build of `add_brg_descriptor`: empty without `use_M_mask`,
   * otherwise `vbrgM` entries, all 1 without output-spatial blocking and
   * `MaskAt` with it.
   */
  method BuildBdMask(useMMask: bool, osBlocking: bool, g: MaskGeom) returns (mask: seq<int>)
    ensures !useMMask ==> mask == []
    ensures useMMask ==> |mask| == g.smSize
    ensures useMMask && !osBlocking ==> forall i :: 0 <= i < |mask| ==> mask[i] == 1
    ensures useMMask && osBlocking ==> forall i :: 0 <= i < |mask| ==> mask[i] == MaskAt(g, i)
  {
    if !useMMask {
      return [];
    }
    var a := new int[g.smSize](_ => 0);
    if osBlocking {
      FillBlocked(a, g);
    } else {
      var ibrgM := 0;
      while ibrgM < g.smSize
        invariant ibrgM <= g.smSize
        invariant forall i :: 0 <= i < ibrgM ==> a[i] == 1
      {
        a[ibrgM] := 1;
        ibrgM := ibrgM + 1;
      }
    }
    mask := a[..];
  }
}
