/**
 * The unique-kernel registry of the brgemm convolution: the distinct
 * (kd, kh, kw) kernel ranges that need padding compensation, kept in
 * first-insertion order, and the lookup that maps a range to its slot.
 */
module ConvKernels {
  import opened Common
  import ConvRange

  /** One kernel range: `[kdB, kdE) x [khB, khE) x [kwB, kwE)`. */
  datatype KerRange = KerRange(kdB: int, kdE: int, khB: int, khE: int, kwB: int, kwE: int)

  /** The value of a slot that `resize` created and no update wrote. */
  const ZeroRange := KerRange(0, 0, 0, 0, 0, 0)

  /** The condition `get_comp_ker_idx` asserts of its query. */
  predicate DhNonEmpty(t: KerRange) {
    t.kdE > t.kdB && t.khE > t.khB
  }

  /** All three ranges are non-empty. */
  predicate NonEmpty(t: KerRange) {
    t.kdE > t.kdB && t.khE > t.khB && t.kwE > t.kwB
  }

  /** The position of the first slot equal to `q`, or -1. */
  function FindFirst(s: seq<KerRange>, q: KerRange): (r: int)
    ensures -1 <= r < |s|
    ensures r == -1 <==> q !in s
    ensures r >= 0 ==> s[r] == q && forall j :: 0 <= j < r ==> s[j] != q
  {
    if s == [] then -1
    else if s[0] == q then 0
    else
      var r := FindFirst(s[1..], q);
      assert forall j :: 1 <= j < |s| ==> s[j] == s[1..][j - 1];
      if r == -1 then -1 else r + 1
  }

  /**
   * `get_comp_ker_idx` over the six per-slot bound tables `slots`: 0 when no
   * padding compensation is computed, otherwise the first matching slot or
   * -1; a query with an empty depth or height range breaks its assertion.
   */
  function CompKerIdx(reqCalCompPad: bool, slots: seq<KerRange>, q: KerRange): (r: Result<int>)
    ensures !reqCalCompPad ==> r == Ok(0)
    ensures reqCalCompPad ==> (r.Err? <==> !DhNonEmpty(q))
    ensures reqCalCompPad && r.Ok? && q in slots ==>
              0 <= r.value < |slots| && slots[r.value] == q && forall j :: 0 <= j < r.value ==> slots[j] != q
    ensures reqCalCompPad && r.Ok? && q !in slots ==> r.value == -1
  {
    if !reqCalCompPad then Ok(0)
    else if !(q.kdE > q.kdB && q.khE > q.khB) then Err("assert(kd_e > kd_b && kh_e > kh_b)")
    else Ok(FindFirst(slots, q))
  }

  /** Single-column ranges `[kw, kw + 1)` for `kw` in `[a, b)`. */
  function Singles(t: KerRange, a: int, b: int): (r: seq<KerRange>)
    decreases b - a
  {
    if a >= b then [] else [t.(kwB := a, kwE := a + 1)] + Singles(t, a + 1, b)
  }

  /** Ranges `[kw, min(c, kw + blk))` for `kw = a, a + blk, ...` below `c`. */
  function Blocks(t: KerRange, a: int, c: int, blk: int): (r: seq<KerRange>)
    requires blk > 0
    decreases c - a
  {
    if a >= c then [] else [t.(kwB := a, kwE := Min(c, a + blk))] + Blocks(t, a + blk, c, blk)
  }

  /** One step of the single-column loop, on the sequence of tuples handed over. */
  lemma SinglesStep(ins: seq<KerRange>, t: KerRange, w: int, b: int)
    requires w < b
    ensures ins + Singles(t, w, b) == (ins + [t.(kwB := w, kwE := w + 1)]) + Singles(t, w + 1, b)
  {
    AppendAssoc(ins, [t.(kwB := w, kwE := w + 1)], Singles(t, w + 1, b));
  }

  /** One step of the `KW_BLOCK` loop, on the sequence of tuples handed over. */
  lemma BlocksStep(ins: seq<KerRange>, t: KerRange, w: int, c: int, blk: int)
    requires w < c && blk > 0
    ensures ins + Blocks(t, w, c, blk) == (ins + [t.(kwB := w, kwE := Min(c, w + blk))]) + Blocks(t, w + blk, c, blk)
  {
    AppendAssoc(ins, [t.(kwB := w, kwE := Min(c, w + blk))], Blocks(t, w + blk, c, blk));
  }

  /**
   * The ranges `exec_base` registers for one output point: single columns
   * on the partial left part, `KW_BLOCK` blocks on the full part, single
   * columns on the partial right part.
   */
  function BasePieces(t: KerRange, kwS: int, kwFullS: int, kwFullF: int, kwF: int, blk: int): seq<KerRange>
    requires blk > 0
  {
    Singles(t, kwS, kwFullS) + Blocks(t, kwFullS, kwFullF, blk) + Singles(t, kwFullF, kwF)
  }

  /** The kw ranges of `s` are non-empty and tile `[a, b)` from left to right. */
  predicate Tiles(s: seq<KerRange>, a: int, b: int)
  {
    if s == [] then a == b
    else s[0].kwB == a && s[0].kwB < s[0].kwE && Tiles(s[1..], s[0].kwE, b)
  }

  lemma {:induction false} TilesConcat(s: seq<KerRange>, u: seq<KerRange>, a: int, b: int, c: int)
    requires Tiles(s, a, b) && Tiles(u, b, c)
    ensures Tiles(s + u, a, c)
  {
    if s == [] {
      assert s + u == u;
    } else {
      assert (s + u)[0] == s[0] && (s + u)[1..] == s[1..] + u;
      TilesConcat(s[1..], u, s[0].kwE, b, c);
    }
  }

  lemma {:induction false} SinglesTile(t: KerRange, a: int, b: int)
    requires a <= b
    ensures Tiles(Singles(t, a, b), a, b)
    decreases b - a
  {
    if a < b {
      SinglesTile(t, a + 1, b);
      assert Singles(t, a, b)[1..] == Singles(t, a + 1, b);
    }
  }

  lemma {:induction false} BlocksTile(t: KerRange, a: int, c: int, blk: int)
    requires a <= c && blk > 0
    ensures Tiles(Blocks(t, a, c, blk), a, c)
    decreases c - a
  {
    if a < c {
      if a + blk < c {
        BlocksTile(t, a + blk, c, blk);
      } else {
        assert Blocks(t, a + blk, c, blk) == [];
      }
      assert Blocks(t, a, c, blk)[1..] == Blocks(t, a + blk, c, blk);
    }
  }

  /** The ranges `exec_base` registers cover `[kw_s, kw_f)` exactly once, in order. */
  lemma BasePiecesTile(t: KerRange, kwS: int, kwFullS: int, kwFullF: int, kwF: int, blk: int)
    requires kwS <= kwFullS <= kwFullF <= kwF && blk > 0
    ensures Tiles(BasePieces(t, kwS, kwFullS, kwFullF, kwF, blk), kwS, kwF)
  {
    SinglesTile(t, kwS, kwFullS);
    BlocksTile(t, kwFullS, kwFullF, blk);
    SinglesTile(t, kwFullF, kwF);
    TilesConcat(Singles(t, kwS, kwFullS), Blocks(t, kwFullS, kwFullF, blk), kwS, kwFullS, kwFullF);
    TilesConcat(Singles(t, kwS, kwFullS) + Blocks(t, kwFullS, kwFullF, blk), Singles(t, kwFullF, kwF), kwS, kwFullF, kwF);
  }

  /** Every range of a tiling is non-empty in kw and keeps the depth/height bounds of `t`. */
  lemma {:induction false} TilesNonEmpty(s: seq<KerRange>, a: int, b: int, t: KerRange)
    requires Tiles(s, a, b)
    requires forall i :: 0 <= i < |s| ==> s[i].(kwB := 0, kwE := 0) == t.(kwB := 0, kwE := 0)
    requires DhNonEmpty(t)
    ensures forall i :: 0 <= i < |s| ==> NonEmpty(s[i])
  {
    if s != [] {
      assert forall i :: 1 <= i < |s| ==> s[1..][i - 1] == s[i];
      TilesNonEmpty(s[1..], s[0].kwE, b, t);
      assert NonEmpty(s[0]) by {
        assert s[0].kdB == t.kdB && s[0].kdE == t.kdE && s[0].khB == t.khB && s[0].khE == t.khE;
      }
    }
  }

  lemma {:induction false} SinglesKeep(t: KerRange, a: int, b: int)
    ensures forall i :: 0 <= i < |Singles(t, a, b)| ==> Singles(t, a, b)[i].(kwB := 0, kwE := 0) == t.(kwB := 0, kwE := 0)
    decreases b - a
  {
    if a < b {
      SinglesKeep(t, a + 1, b);
    }
  }

  lemma {:induction false} BlocksKeep(t: KerRange, a: int, c: int, blk: int)
    requires blk > 0
    ensures forall i :: 0 <= i < |Blocks(t, a, c, blk)| ==> Blocks(t, a, c, blk)[i].(kwB := 0, kwE := 0) == t.(kwB := 0, kwE := 0)
    decreases c - a
  {
    if a < c {
      BlocksKeep(t, a + blk, c, blk);
    }
  }

  /** Every range `exec_base` registers for a point with non-empty depth and height ranges is non-empty. */
  lemma BasePiecesNonEmpty(t: KerRange, kwS: int, kwFullS: int, kwFullF: int, kwF: int, blk: int)
    requires kwS <= kwFullS <= kwFullF <= kwF && blk > 0 && DhNonEmpty(t)
    ensures forall i :: 0 <= i < |BasePieces(t, kwS, kwFullS, kwFullF, kwF, blk)| ==>
              NonEmpty(BasePieces(t, kwS, kwFullS, kwFullF, kwF, blk)[i])
  {
    BasePiecesTile(t, kwS, kwFullS, kwFullF, kwF, blk);
    SinglesKeep(t, kwS, kwFullS);
    BlocksKeep(t, kwFullS, kwFullF, blk);
    SinglesKeep(t, kwFullF, kwF);
    var p := BasePieces(t, kwS, kwFullS, kwFullF, kwF, blk);
    var s1, s2, s3 := Singles(t, kwS, kwFullS), Blocks(t, kwFullS, kwFullF, blk), Singles(t, kwFullF, kwF);
    assert p == s1 + s2 + s3;
    forall i | 0 <= i < |p|
      ensures p[i].(kwB := 0, kwE := 0) == t.(kwB := 0, kwE := 0)
    {
      if i < |s1| {
        assert p[i] == s1[i];
      } else if i < |s1| + |s2| {
        assert p[i] == s2[i - |s1|];
      } else {
        assert p[i] == s3[i - |s1| - |s2|];
      }
    }
    TilesNonEmpty(p, kwS, kwF, t);
  }

  /** The execution types that reach the registration loop. */
  datatype ExecType = ExecBase | ExecVpad | ExecTrans

  /** The ranges the registration loop hands to `update_kernels` for one output point. */
  function PointPieces(exec: ExecType, t: KerRange, kwS: int, kwFullS: int, kwFullF: int, kwF: int, kw: int, blk: int): seq<KerRange>
    requires blk > 0
  {
    if !(t.kdE > t.kdB && t.khE > t.khB && kwF > kwS) then []
    else if exec == ExecVpad then [t.(kwB := 0, kwE := kw)]
    else if exec == ExecBase then BasePieces(t, kwS, kwFullS, kwFullF, kwF, blk)
    else []
  }

  /** Every range the registration loop hands over for one point is non-empty. */
  lemma PointPiecesNonEmpty(exec: ExecType, t: KerRange, kwS: int, kwFullS: int, kwFullF: int, kwF: int, kw: int, blk: int)
    requires 0 <= kwS <= kwFullS <= kwFullF <= kwF <= kw && blk > 0
    ensures forall i :: 0 <= i < |PointPieces(exec, t, kwS, kwFullS, kwFullF, kwF, kw, blk)| ==>
              NonEmpty(PointPieces(exec, t, kwS, kwFullS, kwFullF, kwF, kw, blk)[i])
  {
    if t.kdE > t.kdB && t.khE > t.khB && kwF > kwS && exec == ExecBase {
      BasePiecesNonEmpty(t, kwS, kwFullS, kwFullF, kwF, blk);
    }
  }

  /** `ndims_pick(v5, v4, v3)`: the value for a 3D, 2D or 1D convolution, 0 otherwise. */
  function NdimsPick(ndims: int, v5: int, v4: int, v3: int): int {
    if ndims == 5 then v5 else if ndims == 4 then v4 else if ndims == 3 then v3 else 0
  }

  /** The convolution shape the registration loop reads. */
  datatype ConvGeom = ConvGeom(
    ndims: int,
    nbOd: int, nbOh: int, nbOw: int,
    odBlock: int, ohBlock: int,
    od: int, oh: int,                                    // OD, OH
    osBlocking: bool,                                   // jcp.is_os_blocking
    sd: int, fp: int, dd: int, kd: int, id: int,        // SD, FP, DD, KD, ID
    sh: int, tp: int, dh: int, kh: int, ih: int,        // SH, TP, DH, KH, IH
    kwBlock: int,                                       // KW_BLOCK
    exec: ExecType,
    w: ConvRange.OwGeom)                                // the width geometry, with KW

  predicate GeomOk(g: ConvGeom) {
    g.dd > 0 && g.dh > 0 && g.kwBlock > 0 && g.w.sw > 0 && g.w.kw >= 0
  }

  /** The depth and height bounds of the kernel at output point (od, oh), with an unset kw range. */
  function PointRange(g: ConvGeom, od: int, oh: int): KerRange
    requires GeomOk(g)
  {
    var d := ConvRange.KRange(od, g.sd, g.fp, g.dd, g.kd, g.id);
    var h := ConvRange.KRange(oh, g.sh, g.tp, g.dh, g.kh, g.ih);
    KerRange(NdimsPick(g.ndims, d.0, 0, 0), NdimsPick(g.ndims, d.1, 1, 1),
             NdimsPick(g.ndims, h.0, h.0, 0), NdimsPick(g.ndims, h.1, h.1, 1), 0, 0)
  }

  /** The ranges registered for output point (od, oh) of an output-width block starting at ow. */
  ghost function PiecesAt(g: ConvGeom, od: int, oh: int, ow: int): seq<KerRange>
    requires GeomOk(g)
  {
    var (kwS, kwFullS, kwFullF, kwF) := ConvRange.KwRange(g.w, ow);
    PointPieces(g.exec, PointRange(g, od, oh), kwS, kwFullS, kwFullF, kwF, g.w.kw, g.kwBlock)
  }

  /** The ranges registered for one output point, as a function of (od, oh, ow). */
  type PointFn = (int, int, int) -> seq<KerRange>

  /**
   * `p` gives the ranges `PiecesAt` gives. The loop proofs below are stated
   * for any such `p`, so that they do not unfold the per-point definition.
   */
  ghost predicate Agrees(p: PointFn, g: ConvGeom) {
    GeomOk(g) && forall od, oh, ow {:trigger PiecesAt(g, od, oh, ow)} :: p(od, oh, ow) == PiecesAt(g, od, oh, ow)
  }

  /** `PiecesAt` itself, as a `PointFn`. */
  ghost function Registered(g: ConvGeom): (p: PointFn)
    requires GeomOk(g)
    ensures Agrees(p, g)
  {
    (od, oh, ow) => PiecesAt(g, od, oh, ow)
  }

  /** Every range of `s` is non-empty. */
  ghost predicate AllNonEmptyIn(s: seq<KerRange>) {
    forall i :: 0 <= i < |s| ==> NonEmpty(s[i])
  }

  lemma NonEmptyConcat(a: seq<KerRange>, b: seq<KerRange>)
    ensures AllNonEmptyIn(a + b) <==> AllNonEmptyIn(a) && AllNonEmptyIn(b)
  {
    if AllNonEmptyIn(a + b) {
      assert forall i :: 0 <= i < |a| ==> a[i] == (a + b)[i];
      assert forall i :: 0 <= i < |b| ==> b[i] == (a + b)[|a| + i];
    }
  }

  /** Every range registered for one output point is non-empty. */
  lemma PiecesAtNonEmpty(g: ConvGeom, od: int, oh: int, ow: int)
    requires GeomOk(g)
    ensures AllNonEmptyIn(PiecesAt(g, od, oh, ow))
  {
    ConvRange.KwRangeOrdered(g.w, ow);
    var (kwS, kwFullS, kwFullF, kwF) := ConvRange.KwRange(g.w, ow);
    PointPiecesNonEmpty(g.exec, PointRange(g, od, oh), kwS, kwFullS, kwFullF, kwF, g.w.kw, g.kwBlock);
  }

  /** The ranges registered for the points oh in [ohBegin, ohEnd) at depth od, in loop order. */
  ghost function RowPieces(p: PointFn, od: int, ohBegin: int, ohEnd: int, ow: int): seq<KerRange>
    decreases ohEnd - ohBegin
  {
    if ohEnd <= ohBegin then [] else RowPieces(p, od, ohBegin, ohEnd - 1, ow) + p(od, ohEnd - 1, ow)
  }

  lemma RowStep(p: PointFn, od: int, ohBegin: int, oh: int, ow: int, i0: seq<KerRange>)
    requires ohBegin <= oh
    ensures (i0 + RowPieces(p, od, ohBegin, oh, ow)) + p(od, oh, ow) == i0 + RowPieces(p, od, ohBegin, oh + 1, ow)
  {
    AppendAssoc(i0, RowPieces(p, od, ohBegin, oh, ow), p(od, oh, ow));
  }

  lemma {:induction false} RowPiecesNonEmpty(p: PointFn, g: ConvGeom, od: int, ohBegin: int, ohEnd: int, ow: int)
    requires Agrees(p, g)
    ensures AllNonEmptyIn(RowPieces(p, od, ohBegin, ohEnd, ow))
    decreases ohEnd - ohBegin
  {
    if ohEnd > ohBegin {
      RowPiecesNonEmpty(p, g, od, ohBegin, ohEnd - 1, ow);
      PiecesAtNonEmpty(g, od, ohEnd - 1, ow);
      NonEmptyConcat(RowPieces(p, od, ohBegin, ohEnd - 1, ow), p(od, ohEnd - 1, ow));
    }
  }

  /** The ranges registered for the depths od in [odBegin, odEnd), each over the rows [ohBegin, ohEnd). */
  ghost function BlockPieces(p: PointFn, odBegin: int, odEnd: int, ohBegin: int, ohEnd: int, ow: int): seq<KerRange>
    decreases odEnd - odBegin
  {
    if odEnd <= odBegin then []
    else BlockPieces(p, odBegin, odEnd - 1, ohBegin, ohEnd, ow) + RowPieces(p, odEnd - 1, ohBegin, ohEnd, ow)
  }

  lemma BlockStep(p: PointFn, odBegin: int, od: int, ohBegin: int, ohEnd: int, ow: int, i0: seq<KerRange>)
    requires odBegin <= od
    ensures (i0 + BlockPieces(p, odBegin, od, ohBegin, ohEnd, ow)) + RowPieces(p, od, ohBegin, ohEnd, ow)
            == i0 + BlockPieces(p, odBegin, od + 1, ohBegin, ohEnd, ow)
  {
    AppendAssoc(i0, BlockPieces(p, odBegin, od, ohBegin, ohEnd, ow), RowPieces(p, od, ohBegin, ohEnd, ow));
  }

  lemma {:induction false} BlockPiecesNonEmpty(p: PointFn, g: ConvGeom, odBegin: int, odEnd: int, ohBegin: int, ohEnd: int, ow: int)
    requires Agrees(p, g)
    ensures AllNonEmptyIn(BlockPieces(p, odBegin, odEnd, ohBegin, ohEnd, ow))
    decreases odEnd - odBegin
  {
    if odEnd > odBegin {
      BlockPiecesNonEmpty(p, g, odBegin, odEnd - 1, ohBegin, ohEnd, ow);
      RowPiecesNonEmpty(p, g, odEnd - 1, ohBegin, ohEnd, ow);
      NonEmptyConcat(BlockPieces(p, odBegin, odEnd - 1, ohBegin, ohEnd, ow), RowPieces(p, odEnd - 1, ohBegin, ohEnd, ow));
    }
  }

  /** The ranges registered for output block (odb, ohb, owb), in loop order. */
  ghost function OutBlockPieces(p: PointFn, g: ConvGeom, odb: int, ohb: int, owb: int): seq<KerRange>
  {
    var odBegin := odb * g.odBlock;
    var ohBegin := ohb * g.ohBlock;
    var ohEnd := if g.osBlocking then ohBegin + 1 else Min(g.oh, ohBegin + g.ohBlock);
    BlockPieces(p, odBegin, Min(g.od, odBegin + g.odBlock), ohBegin, ohEnd, owb * g.w.owBlock)
  }

  lemma OutBlockPiecesNonEmpty(p: PointFn, g: ConvGeom, odb: int, ohb: int, owb: int)
    requires Agrees(p, g)
    ensures AllNonEmptyIn(OutBlockPieces(p, g, odb, ohb, owb))
  {
    var odBegin := odb * g.odBlock;
    var ohBegin := ohb * g.ohBlock;
    var ohEnd := if g.osBlocking then ohBegin + 1 else Min(g.oh, ohBegin + g.ohBlock);
    BlockPiecesNonEmpty(p, g, odBegin, Min(g.od, odBegin + g.odBlock), ohBegin, ohEnd, owb * g.w.owBlock);
  }

  /** The ranges registered for the output blocks owb in [0, n) of row block (odb, ohb). */
  ghost function OwbPieces(p: PointFn, g: ConvGeom, odb: int, ohb: int, n: int): seq<KerRange>
    decreases n
  {
    if n <= 0 then [] else OwbPieces(p, g, odb, ohb, n - 1) + OutBlockPieces(p, g, odb, ohb, n - 1)
  }

  lemma OwbStep(p: PointFn, g: ConvGeom, odb: int, ohb: int, n: int, i0: seq<KerRange>)
    requires n >= 0
    ensures (i0 + OwbPieces(p, g, odb, ohb, n)) + OutBlockPieces(p, g, odb, ohb, n) == i0 + OwbPieces(p, g, odb, ohb, n + 1)
  {
    AppendAssoc(i0, OwbPieces(p, g, odb, ohb, n), OutBlockPieces(p, g, odb, ohb, n));
  }

  lemma {:induction false} OwbPiecesNonEmpty(p: PointFn, g: ConvGeom, odb: int, ohb: int, n: int)
    requires Agrees(p, g)
    ensures AllNonEmptyIn(OwbPieces(p, g, odb, ohb, n))
    decreases n
  {
    if n > 0 {
      OwbPiecesNonEmpty(p, g, odb, ohb, n - 1);
      OutBlockPiecesNonEmpty(p, g, odb, ohb, n - 1);
      NonEmptyConcat(OwbPieces(p, g, odb, ohb, n - 1), OutBlockPieces(p, g, odb, ohb, n - 1));
    }
  }

  /** The ranges registered for the row blocks ohb in [0, n) of depth block odb. */
  ghost function OhbPieces(p: PointFn, g: ConvGeom, odb: int, n: int): seq<KerRange>
    decreases n
  {
    if n <= 0 then [] else OhbPieces(p, g, odb, n - 1) + OwbPieces(p, g, odb, n - 1, g.nbOw)
  }

  lemma OhbStep(p: PointFn, g: ConvGeom, odb: int, n: int, i0: seq<KerRange>)
    requires n >= 0
    ensures (i0 + OhbPieces(p, g, odb, n)) + OwbPieces(p, g, odb, n, g.nbOw) == i0 + OhbPieces(p, g, odb, n + 1)
  {
    AppendAssoc(i0, OhbPieces(p, g, odb, n), OwbPieces(p, g, odb, n, g.nbOw));
  }

  lemma {:induction false} OhbPiecesNonEmpty(p: PointFn, g: ConvGeom, odb: int, n: int)
    requires Agrees(p, g)
    ensures AllNonEmptyIn(OhbPieces(p, g, odb, n))
    decreases n
  {
    if n > 0 {
      OhbPiecesNonEmpty(p, g, odb, n - 1);
      OwbPiecesNonEmpty(p, g, odb, n - 1, g.nbOw);
      NonEmptyConcat(OhbPieces(p, g, odb, n - 1), OwbPieces(p, g, odb, n - 1, g.nbOw));
    }
  }

  /** The ranges registered for the depth blocks odb in [0, n). */
  ghost function OdbPieces(p: PointFn, g: ConvGeom, n: int): seq<KerRange>
    decreases n
  {
    if n <= 0 then [] else OdbPieces(p, g, n - 1) + OhbPieces(p, g, n - 1, g.nbOh)
  }

  lemma OdbStep(p: PointFn, g: ConvGeom, n: int, i0: seq<KerRange>)
    requires n >= 0
    ensures (i0 + OdbPieces(p, g, n)) + OhbPieces(p, g, n, g.nbOh) == i0 + OdbPieces(p, g, n + 1)
  {
    AppendAssoc(i0, OdbPieces(p, g, n), OhbPieces(p, g, n, g.nbOh));
  }

  lemma {:induction false} OdbPiecesNonEmpty(p: PointFn, g: ConvGeom, n: int)
    requires Agrees(p, g)
    ensures AllNonEmptyIn(OdbPieces(p, g, n))
    decreases n
  {
    if n > 0 {
      OdbPiecesNonEmpty(p, g, n - 1);
      OhbPiecesNonEmpty(p, g, n - 1, g.nbOh);
      NonEmptyConcat(OdbPieces(p, g, n - 1), OhbPieces(p, g, n - 1, g.nbOh));
    }
  }

  /** Every range the registration loop of `init` hands to `update_kernels`, in call order. */
  ghost function AllPieces(g: ConvGeom): seq<KerRange>
    requires GeomOk(g)
  {
    OdbPieces(Registered(g), g, g.nbOd)
  }

  /** Every range the registration loop hands to `update_kernels` is non-empty in all three dimensions. */
  lemma AllPiecesNonEmpty(g: ConvGeom)
    requires GeomOk(g)
    ensures AllNonEmptyIn(AllPieces(g))
  {
    OdbPiecesNonEmpty(Registered(g), g, g.nbOd);
  }

  /**
   * The registry `init` fills when padding compensation is computed: the
   * six tables `kd_bs ... kw_es` (one `KerRange` per slot), the count `k`
   * and the `std::set` of tuples seen; `inserted` is every tuple passed to
   * `update_kernels`, in call order.
   */
  class KernelRegistry {
    const size: nat
    var slots: array<KerRange>
    var k: nat
    var unique: set<KerRange>
    ghost var inserted: seq<KerRange>

    ghost predicate Valid()
      reads this, slots
    {
      slots.Length == size && k <= size &&
      slots[..k] == Dedup(inserted) &&
      unique == Elems(inserted) &&
      |unique| == k &&
      forall i :: k <= i < size ==> slots[i] == ZeroRange
    }

    /** The six tables, slot by slot. */
    function Slots(): seq<KerRange>
      reads this, slots
    {
      slots[..]
    }

    /** `resize(ker_ranges_size)` of the six tables, and an empty set. */
    constructor(kerRangesSize: nat)
      ensures Valid() && fresh(slots)
      ensures size == kerRangesSize && k == 0 && unique == {} && inserted == []
    {
      size := kerRangesSize;
      slots := new KerRange[kerRangesSize](_ => ZeroRange);
      k := 0;
      unique := {};
      inserted := [];
    }

    /**
     * `update_kernels`: inserts `t` into the set and appends it to the
     * tables when it is new; a new tuple with every slot taken writes past
     * the tables and breaks the assertion `k <= ker_ranges_size`.
     */
    method Update(t: KerRange) returns (r: Outcome)
      requires Valid()
      modifies this, slots
      ensures slots == old(slots)
      ensures r.Fail? <==> t !in old(unique) && old(k) == size
      ensures unique == old(unique) + {t}
      ensures r.Done? ==> Valid() && inserted == old(inserted) + [t]
      ensures r.Done? ==> k == old(k) + (if t in old(unique) then 0 else 1)
      ensures r.Done? ==> Slots() == if t in old(unique) then old(Slots()) else old(Slots())[old(k) := t]
      ensures r.Fail? ==> k == old(k) && Slots() == old(Slots())
    {
      CardAddOne(unique, t);
      ElemsMem(inserted, t);
      ElemsSnoc(inserted, t);
      DedupSnoc(inserted, t);
      unique := unique + {t};
      if k == |unique| {
        inserted := inserted + [t];
        return Done;
      }
      if k == size {
        return Fail("assert(k <= ker_ranges_size): slot k is past the tables");
      }
      slots[k] := t;
      assert slots[..k + 1] == old(slots[..k]) + [t];
      k := k + 1;
      inserted := inserted + [t];
      return Done;
    }

    /** The loop `for (kw = a; kw < b; kw++) update_kernels(..., kw, kw + 1)`. */
    method RegisterSingles(t: KerRange, a: int, b: int) returns (r: Outcome)
      requires Valid()
      modifies this, slots
      ensures slots == old(slots)
      ensures r.Done? ==> Valid() && inserted == old(inserted) + Singles(t, a, b)
    {
      var w := a;
      while w < b
        invariant slots == old(slots) && Valid()
        invariant old(inserted) + Singles(t, a, b) == inserted + Singles(t, w, b)
        decreases b - w
      {
        var x := t.(kwB := w, kwE := w + 1);
        SinglesStep(inserted, t, w, b);
        r := Update(x);
        if r.Fail? {
          return;
        }
        w := w + 1;
      }
      assert inserted + Singles(t, w, b) == inserted;
      return Done;
    }

    /** The loop `for (kw = a; kw < c; kw += KW_BLOCK) update_kernels(..., kw, min(c, kw + KW_BLOCK))`. */
    method RegisterBlocks(t: KerRange, a: int, c: int, blk: int) returns (r: Outcome)
      requires Valid() && blk > 0
      modifies this, slots
      ensures slots == old(slots)
      ensures r.Done? ==> Valid() && inserted == old(inserted) + Blocks(t, a, c, blk)
    {
      var w := a;
      while w < c
        invariant slots == old(slots) && Valid()
        invariant old(inserted) + Blocks(t, a, c, blk) == inserted + Blocks(t, w, c, blk)
        decreases c - w
      {
        var x := t.(kwB := w, kwE := Min(c, w + blk));
        BlocksStep(inserted, t, w, c, blk);
        r := Update(x);
        if r.Fail? {
          return;
        }
        w := w + blk;
      }
      assert inserted + Blocks(t, w, c, blk) == inserted;
      return Done;
    }

    /**
     * The body of the registration loop for one output point: nothing when
     * a range is empty, `[0, KW)` under `exec_vpad`, the kw pieces under
     * `exec_base`.
     */
    method RegisterPoint(exec: ExecType, t: KerRange, kwS: int, kwFullS: int, kwFullF: int, kwF: int, kw: int, blk: int)
      returns (r: Outcome)
      requires Valid() && blk > 0
      modifies this, slots
      ensures slots == old(slots)
      ensures r.Done? ==> Valid() && inserted == old(inserted) + PointPieces(exec, t, kwS, kwFullS, kwFullF, kwF, kw, blk)
    {
      if t.kdE > t.kdB && t.khE > t.khB && kwF > kwS {
        if exec == ExecVpad {
          r := Update(t.(kwB := 0, kwE := kw));
          return;
        } else if exec == ExecBase {
          ghost var i0 := inserted;
          r := RegisterSingles(t, kwS, kwFullS);
          if r.Fail? {
            return;
          }
          r := RegisterBlocks(t, kwFullS, kwFullF, blk);
          if r.Fail? {
            return;
          }
          r := RegisterSingles(t, kwFullF, kwF);
          if r.Fail? {
            return;
          }
          AppendAssoc3(i0, Singles(t, kwS, kwFullS), Blocks(t, kwFullS, kwFullF, blk), Singles(t, kwFullF, kwF));
        }
      }
      return Done;
    }

    /** Every range passed to `update_kernels` so far is non-empty. */
    ghost predicate AllNonEmpty()
      reads this
    {
      AllNonEmptyIn(inserted)
    }

    /**
     * The `od`/`oh` loops for one output block, for any `p` that gives the
     * ranges of one output point.
     */
    method RegisterOutBlock(g: ConvGeom, odb: int, ohb: int, owb: int, ghost p: PointFn) returns (r: Outcome)
      requires Valid() && Agrees(p, g)
      modifies this, slots
      ensures slots == old(slots)
      ensures r.Done? ==> Valid()
      ensures r.Done? ==> inserted == old(inserted) + OutBlockPieces(p, g, odb, ohb, owb)
      ensures r.Done? ==> (AllNonEmpty() <==> old(AllNonEmpty()))
    {
      var odBegin := odb * g.odBlock;
      var odEnd := Min(g.od, odBegin + g.odBlock);
      var ohBegin := ohb * g.ohBlock;
      var ohEnd := if g.osBlocking then ohBegin + 1 else Min(g.oh, ohBegin + g.ohBlock);
      r := RegisterDepths(g, odBegin, odEnd, ohBegin, ohEnd, owb * g.w.owBlock, p);
      if r.Done? {
        OutBlockPiecesNonEmpty(p, g, odb, ohb, owb);
        NonEmptyConcat(old(inserted), OutBlockPieces(p, g, odb, ohb, owb));
      }
    }

    /** The `od` loop of one output block, over the rows [ohBegin, ohEnd) of the width block at ow. */
    method RegisterDepths(g: ConvGeom, odBegin: int, odEnd: int, ohBegin: int, ohEnd: int, ow: int, ghost p: PointFn)
      returns (r: Outcome)
      requires Valid() && Agrees(p, g)
      modifies this, slots
      ensures slots == old(slots)
      ensures r.Done? ==> Valid()
      ensures r.Done? ==> inserted == old(inserted) + BlockPieces(p, odBegin, odEnd, ohBegin, ohEnd, ow)
    {
      var od := odBegin;
      while od < odEnd
        invariant slots == old(slots) && Valid()
        invariant odBegin <= od && (od <= odEnd || od == odBegin)
        invariant inserted == old(inserted) + BlockPieces(p, odBegin, od, ohBegin, ohEnd, ow)
        decreases odEnd - od
      {
        r := RegisterRow(g, od, ohBegin, ohEnd, ow, p);
        if r.Fail? {
          return;
        }
        BlockStep(p, odBegin, od, ohBegin, ohEnd, ow, old(inserted));
        od := od + 1;
      }
      assert BlockPieces(p, odBegin, od, ohBegin, ohEnd, ow) == BlockPieces(p, odBegin, odEnd, ohBegin, ohEnd, ow);
      return Done;
    }

    /** The `oh` loop of one output block at depth od. */
    method RegisterRow(g: ConvGeom, od: int, ohBegin: int, ohEnd: int, ow: int, ghost p: PointFn) returns (r: Outcome)
      requires Valid() && Agrees(p, g)
      modifies this, slots
      ensures slots == old(slots)
      ensures r.Done? ==> Valid()
      ensures r.Done? ==> inserted == old(inserted) + RowPieces(p, od, ohBegin, ohEnd, ow)
    {
      var oh := ohBegin;
      while oh < ohEnd
        invariant slots == old(slots) && Valid()
        invariant ohBegin <= oh && (oh <= ohEnd || oh == ohBegin)
        invariant inserted == old(inserted) + RowPieces(p, od, ohBegin, oh, ow)
        decreases ohEnd - oh
      {
        r := RegisterPointAt(g, od, oh, ow, p);
        if r.Fail? {
          return;
        }
        RowStep(p, od, ohBegin, oh, ow, old(inserted));
        oh := oh + 1;
      }
      assert RowPieces(p, od, ohBegin, oh, ow) == RowPieces(p, od, ohBegin, ohEnd, ow);
      return Done;
    }

    /** The body of the `oh` loop: the ranges of output point (od, oh). */
    method RegisterPointAt(g: ConvGeom, od: int, oh: int, ow: int, ghost p: PointFn) returns (r: Outcome)
      requires Valid() && Agrees(p, g)
      modifies this, slots
      ensures slots == old(slots)
      ensures r.Done? ==> Valid()
      ensures r.Done? ==> inserted == old(inserted) + p(od, oh, ow)
    {
      var t := PointRange(g, od, oh);
      var kwS, kwFullS, kwFullF, kwF := ConvRange.GetKwRange(g.w, ow);
      ConvRange.GetKwRangeIs(g.w, ow, kwS, kwFullS, kwFullF, kwF);
      assert p(od, oh, ow) == PiecesAt(g, od, oh, ow);
      r := RegisterPoint(g.exec, t, kwS, kwFullS, kwFullF, kwF, g.w.kw, g.kwBlock);
    }

    /**
     * The registration loop of `init`: every output block, every output
     * point in it, every kernel range its point needs; `ker_vpad_sz` is
     * the final `k`.
     */
    method RegisterAll(g: ConvGeom) returns (r: Outcome)
      requires Valid() && GeomOk(g)
      modifies this, slots
      ensures slots == old(slots)
      ensures r.Done? ==> Valid()
      ensures r.Done? ==> inserted == old(inserted) + AllPieces(g)
      ensures r.Done? ==> (AllNonEmpty() <==> old(AllNonEmpty()))
    {
      r := RegisterDepthBlocks(g, Registered(g));
      if r.Done? {
        AllPiecesNonEmpty(g);
        NonEmptyConcat(old(inserted), AllPieces(g));
      }
    }

    /** The `odb` loop of the registration loop. */
    method RegisterDepthBlocks(g: ConvGeom, ghost p: PointFn) returns (r: Outcome)
      requires Valid() && Agrees(p, g)
      modifies this, slots
      ensures slots == old(slots)
      ensures r.Done? ==> Valid()
      ensures r.Done? ==> inserted == old(inserted) + OdbPieces(p, g, g.nbOd)
    {
      var odb := 0;
      while odb < g.nbOd
        invariant slots == old(slots) && Valid()
        invariant 0 <= odb && (odb <= g.nbOd || odb == 0)
        invariant inserted == old(inserted) + OdbPieces(p, g, odb)
        decreases g.nbOd - odb
      {
        r := RegisterRowBlocks(g, odb, p);
        if r.Fail? {
          return;
        }
        OdbStep(p, g, odb, old(inserted));
        odb := odb + 1;
      }
      assert OdbPieces(p, g, odb) == OdbPieces(p, g, g.nbOd);
      return Done;
    }

    /** The `ohb` loop of the registration loop for depth block odb. */
    method RegisterRowBlocks(g: ConvGeom, odb: int, ghost p: PointFn) returns (r: Outcome)
      requires Valid() && Agrees(p, g)
      modifies this, slots
      ensures slots == old(slots)
      ensures r.Done? ==> Valid()
      ensures r.Done? ==> inserted == old(inserted) + OhbPieces(p, g, odb, g.nbOh)
    {
      var ohb := 0;
      while ohb < g.nbOh
        invariant slots == old(slots) && Valid()
        invariant 0 <= ohb && (ohb <= g.nbOh || ohb == 0)
        invariant inserted == old(inserted) + OhbPieces(p, g, odb, ohb)
        decreases g.nbOh - ohb
      {
        r := RegisterOutBlocks(g, odb, ohb, p);
        if r.Fail? {
          return;
        }
        OhbStep(p, g, odb, ohb, old(inserted));
        ohb := ohb + 1;
      }
      assert OhbPieces(p, g, odb, ohb) == OhbPieces(p, g, odb, g.nbOh);
      return Done;
    }

    /** The `owb` loop of the registration loop for row block (odb, ohb). */
    method RegisterOutBlocks(g: ConvGeom, odb: int, ohb: int, ghost p: PointFn) returns (r: Outcome)
      requires Valid() && Agrees(p, g)
      modifies this, slots
      ensures slots == old(slots)
      ensures r.Done? ==> Valid()
      ensures r.Done? ==> inserted == old(inserted) + OwbPieces(p, g, odb, ohb, g.nbOw)
    {
      var owb := 0;
      while owb < g.nbOw
        invariant slots == old(slots) && Valid()
        invariant 0 <= owb && (owb <= g.nbOw || owb == 0)
        invariant inserted == old(inserted) + OwbPieces(p, g, odb, ohb, owb)
        decreases g.nbOw - owb
      {
        r := RegisterOutBlock(g, odb, ohb, owb, p);
        if r.Fail? {
          return;
        }
        OwbStep(p, g, odb, ohb, owb, old(inserted));
        owb := owb + 1;
      }
      assert OwbPieces(p, g, odb, ohb, owb) == OwbPieces(p, g, odb, ohb, g.nbOw);
      return Done;
    }
  }

  /** The slot `get_comp_ker_idx` finds for a registered range is its first-insertion rank. */
  lemma LookupRegistered(reg: KernelRegistry, q: KerRange)
    requires reg.Valid() && q in reg.inserted && DhNonEmpty(q)
    ensures CompKerIdx(true, reg.Slots(), q) == Ok(IndexOf(Dedup(reg.inserted), q))
  {
    ElemsMem(reg.inserted, q);
    var d := Dedup(reg.inserted);
    var s := reg.Slots();
    assert s[..reg.k] == d;
    assert q in d;
    var i := IndexOf(d, q);
    assert s[i] == q;
  }

  /** A range that was never registered and has non-empty depth and height is not found. */
  lemma LookupUnregistered(reg: KernelRegistry, q: KerRange)
    requires reg.Valid() && q !in reg.inserted && DhNonEmpty(q)
    ensures CompKerIdx(true, reg.Slots(), q) == Ok(-1)
  {
    ElemsMem(reg.inserted, q);
    var s := reg.Slots();
    forall i | 0 <= i < |s|
      ensures s[i] != q
    {
      if i < reg.k {
        assert s[i] == Dedup(reg.inserted)[i];
      }
    }
  }
}
