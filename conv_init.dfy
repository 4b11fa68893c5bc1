/**
 * The brgemm batch of one convolution call (`init_batch`): for every input
 * channel block and every kernel point of the range `[kdB, kdE) x [khB, khE)
 * x [kwB, kwE)`, the batch element at `b_idx = i_icb * k_l + k` receives the
 * source and weight addresses (or their offsets from the first element) and
 * the virtual padding of its kernel column.
 */
module ConvInit {
  import opened Common

  /** `jcp.brg_type`. */
  datatype BrgType = BrgAddr | BrgOffs | BrgStaticOffs | BrgStrd

  /**
   * A `brgemm_batch_element_t`: the address pair (`ptr.A`/`ptr.B`, or
   * `offset.A`/`offset.B`, which share storage) and `vvpad.top`/`vvpad.bottom`.
   * Addresses are plain integers.
   */
  datatype BatchElem = BatchElem(a: int, b: int, top: int, bottom: int)

  /** The `jcp` and `pd_t` fields `init_batch` reads. */
  datatype InitLayout = InitLayout(
    execTrans: bool,        // jcp.exec_type == exec_trans
    copyBlockOnly: bool,    // jcp.copy_block_only
    khSets: int,            // jcp.kh_sets
    useUker: bool,          // jcp.use_uker
    brgType: BrgType,       // jcp.brg_type
    maxVpad: int,           // jcp.max_vpad
    invert: bool,           // whether maybe_invert mirrors kernel indices
    icBlock: int,           // jcp.ic_block
    nbIcBlocking: int,      // jcp.nb_ic_blocking
    pbufDSz: int,           // pbuf_d_sz
    srcDsz: int,            // src_dsz
    srcDOffset: int,        // src_d_offset
    adjSrcHOffset: int,     // adj_src_h_offset
    srcIwOffset: int,       // src_iw_offset
    weiIcOffset: int,       // wei_ic_offset
    weiKdOffset: int,       // wei_kd_offset
    weiKhOffset: int,       // wei_kh_offset
    weiKwOffset: int,       // wei_kw_offset
    dd: int, dh: int, dw: int,   // DD, DH, DW (dilation + 1)
    kd: int, kh: int, kw: int)   // KD, KH, KW

  /** The arguments of one `init_batch` call. */
  datatype InitArgs = InitArgs(
    icc: int, srcBase: int, weiBase: int, nIcBlocks: int, icBlockS: int,
    iidB: int, iihB: int, iiwB: int,
    tops: seq<int>, bottoms: seq<int>,     // kw_top_vpads, kw_bottom_vpads
    kdB: int, kdE: int, khB: int, khE: int, kwB: int, kwE: int,
    kL: int)                               // k_l, the batch elements per channel block

  /** `maybe_invert(k, K)`: the weight index of kernel index `k`. */
  function MaybeInvert(l: InitLayout, k: int, kk: int): int {
    if l.invert then kk - 1 - k else k
  }

  /** The trip count of `for (x = b; x < e; x++)`. */
  function Span(b: int, e: int): nat {
    if e > b then e - b else 0
  }

  /** The kernel points one channel block visits. */
  function Count(a: InitArgs): nat {
    Span(a.kdB, a.kdE) * Span(a.khB, a.khE) * Span(a.kwB, a.kwE)
  }

  /** The vpad tables cover the kernel columns when they are read. */
  predicate VpadOk(l: InitLayout, a: InitArgs) {
    l.maxVpad != 0 && a.kwB < a.kwE ==> 0 <= a.kwB && a.kwE <= |a.tops| && a.kwE <= |a.bottoms|
  }

  /** What the callers provide: `k_l` covers the kernel points, and the batch holds every channel block. */
  predicate ArgsOk(l: InitLayout, a: InitArgs) {
    VpadOk(l, a) && Count(a) <= a.kL
  }

  predicate OffsMode(l: InitLayout) {
    l.brgType == BrgOffs || l.brgType == BrgStaticOffs
  }

  /** `need_A_B`: offsets are taken relative to the addresses of element 0. */
  predicate NeedAB(l: InitLayout) {
    l.useUker && OffsMode(l)
  }

  function IcOff(l: InitLayout, a: InitArgs, i: int): int {
    (a.icBlockS + i) * l.icBlock
  }

  /** `A_addr` of channel block `i` at kernel point (kd, kh, kw). */
  function AAddr(l: InitLayout, a: InitArgs, i: int, kd: int, kh: int, kw: int): int {
    var shift := if l.execTrans then (if l.copyBlockOnly then 0 else i * l.pbufDSz) else IcOff(l, a, i);
    var id := a.iidB + kd * l.dd;
    var ih := if l.execTrans && l.khSets > 1 then a.iihB else a.iihB + kh * l.dh;
    var iw := a.iiwB + kw * l.dw;
    a.srcBase + shift * l.srcDsz + id * l.srcDOffset + ih * l.adjSrcHOffset + iw * l.srcIwOffset
  }

  /** `B_addr` of channel block `i` at kernel point (kd, kh, kw). */
  function BAddr(l: InitLayout, a: InitArgs, i: int, kd: int, kh: int, kw: int): int {
    var weiIc := a.icc * l.nbIcBlocking * l.icBlock + IcOff(l, a, i);
    a.weiBase + weiIc * l.weiIcOffset + MaybeInvert(l, kd, l.kd) * l.weiKdOffset
      + MaybeInvert(l, kh, l.kh) * l.weiKhOffset + MaybeInvert(l, kw, l.kw) * l.weiKwOffset
  }

  /** `ptrA`/`ptrB` once element 0 has been visited: its addresses under `need_A_B`, null otherwise. */
  function PtrA(l: InitLayout, a: InitArgs): int {
    if NeedAB(l) && a.nIcBlocks > 0 && Count(a) > 0 then AAddr(l, a, 0, a.kdB, a.khB, a.kwB) else 0
  }

  function PtrB(l: InitLayout, a: InitArgs): int {
    if NeedAB(l) && a.nIcBlocks > 0 && Count(a) > 0 then BAddr(l, a, 0, a.kdB, a.khB, a.kwB) else 0
  }

  /** The flat position `i_icb * k_l + k` of a channel block and kernel point. */
  function BIdx(a: InitArgs, i: int, kd: int, kh: int, kw: int): int {
    i * a.kL + ((kd - a.kdB) * Span(a.khB, a.khE) + (kh - a.khB)) * Span(a.kwB, a.kwE) + (kw - a.kwB)
  }

  /** Channel block `i` and kernel point (kd, kh, kw) are visited by the call. */
  predicate Visited(a: InitArgs, i: int, kd: int, kh: int, kw: int) {
    0 <= i < a.nIcBlocks && a.kdB <= kd < a.kdE && a.khB <= kh < a.khE && a.kwB <= kw < a.kwE
  }

  /** Element `e` after the visit of (i, kd, kh, kw), with the base pointers `pA`/`pB`. */
  function ElemAt(l: InitLayout, a: InitArgs, e: BatchElem, i: int, kd: int, kh: int, kw: int, pA: int, pB: int): BatchElem
    requires VpadOk(l, a) && a.kwB <= kw < a.kwE
  {
    var aAddr := AAddr(l, a, i, kd, kh, kw);
    var bAddr := BAddr(l, a, i, kd, kh, kw);
    var e1 := if l.brgType == BrgAddr then e.(a := aAddr, b := bAddr)
              else if OffsMode(l) then e.(a := aAddr - pA, b := bAddr - pB)
              else e;
    if l.maxVpad != 0 then e1.(top := a.tops[kw], bottom := a.bottoms[kw]) else e1
  }

  /** Position `j` is written by the call. */
  predicate Touched(a: InitArgs, j: int) {
    a.kL > 0 && 0 <= j < a.nIcBlocks * a.kL && j % a.kL < Count(a)
  }

  /** The spec of the call: element `j` of the batch `o` after `init_batch`. */
  function Final(l: InitLayout, a: InitArgs, o: seq<BatchElem>, j: int): BatchElem
    requires VpadOk(l, a) && 0 <= j < |o|
  {
    var nh := Span(a.khB, a.khE);
    var nw := Span(a.kwB, a.kwE);
    if Touched(a, j) && nh > 0 && nw > 0 then
      var k := j % a.kL;
      ElemAt(l, a, o[j], j / a.kL, a.kdB + (k / nw) / nh, a.khB + (k / nw) % nh, a.kwB + k % nw, PtrA(l, a), PtrB(l, a))
    else o[j]
  }

  /** The decoding `Final` uses inverts `BIdx` on the visited points. */
  lemma Decode(a: InitArgs, i: int, kd: int, kh: int, kw: int)
    requires Count(a) <= a.kL && Visited(a, i, kd, kh, kw)
    ensures var j := BIdx(a, i, kd, kh, kw);
            var k := j - i * a.kL;
            var nh := Span(a.khB, a.khE);
            var nw := Span(a.kwB, a.kwE);
            nh > 0 && nw > 0 && Touched(a, j) && 0 <= k < Count(a) &&
            j / a.kL == i && j % a.kL == k &&
            (k / nw) / nh == kd - a.kdB && (k / nw) % nh == kh - a.khB && k % nw == kw - a.kwB
  {
    var nd, nh, nw := Span(a.kdB, a.kdE), Span(a.khB, a.khE), Span(a.kwB, a.kwE);
    var dh := (kd - a.kdB) * nh + (kh - a.khB);
    var k := dh * nw + (kw - a.kwB);
    DigitBound(kd - a.kdB, kh - a.khB, nh, nd);
    DigitBound(dh, kw - a.kwB, nw, nd * nh);
    DigitBound(i, k, a.kL, a.nIcBlocks);
    DivModOf(i, k, a.kL);
    DivModOf(dh, kw - a.kwB, nw);
    DivModOf(kd - a.kdB, kh - a.khB, nh);
  }

  /** Distinct visited points have distinct batch positions, all below `n_ic_blocks * k_l`. */
  lemma BIdxInjective(a: InitArgs, i1: int, kd1: int, kh1: int, kw1: int, i2: int, kd2: int, kh2: int, kw2: int)
    requires Count(a) <= a.kL && Visited(a, i1, kd1, kh1, kw1) && Visited(a, i2, kd2, kh2, kw2)
    requires BIdx(a, i1, kd1, kh1, kw1) == BIdx(a, i2, kd2, kh2, kw2)
    ensures i1 == i2 && kd1 == kd2 && kh1 == kh2 && kw1 == kw2
  {
    Decode(a, i1, kd1, kh1, kw1);
    Decode(a, i2, kd2, kh2, kw2);
  }

  /** The element at the position of a visited point is that point's element. */
  lemma FinalAtVisited(l: InitLayout, a: InitArgs, o: seq<BatchElem>, i: int, kd: int, kh: int, kw: int)
    requires ArgsOk(l, a) && Visited(a, i, kd, kh, kw) && a.nIcBlocks * a.kL <= |o|
    ensures 0 <= BIdx(a, i, kd, kh, kw) < |o|
    ensures Final(l, a, o, BIdx(a, i, kd, kh, kw)) ==
            ElemAt(l, a, o[BIdx(a, i, kd, kh, kw)], i, kd, kh, kw, PtrA(l, a), PtrB(l, a))
  {
    Decode(a, i, kd, kh, kw);
  }

  /** In offset mode with `need_A_B`, element 0 holds the offsets A = B = 0. */
  lemma FirstOffsetsZero(l: InitLayout, a: InitArgs, o: seq<BatchElem>)
    requires ArgsOk(l, a) && NeedAB(l) && a.nIcBlocks > 0 && Count(a) > 0 && a.nIcBlocks * a.kL <= |o|
    ensures Final(l, a, o, 0).a == 0 && Final(l, a, o, 0).b == 0
  {
    assert Visited(a, 0, a.kdB, a.khB, a.kwB);
    FinalAtVisited(l, a, o, 0, a.kdB, a.khB, a.kwB);
    assert BIdx(a, 0, a.kdB, a.khB, a.kwB) == 0;
  }

  /** Positions below `cur` hold their final element, the others their old one. */
  ghost predicate Filled(l: InitLayout, a: InitArgs, s: seq<BatchElem>, o: seq<BatchElem>, cur: int)
    requires VpadOk(l, a)
  {
    |s| == |o| && forall j :: 0 <= j < |s| ==> s[j] == (if j < cur then Final(l, a, o, j) else o[j])
  }

  /** The base pointers before and after element 0 is visited. */
  predicate PtrsAt(l: InitLayout, a: InitArgs, i: int, k: int, pA: int, pB: int) {
    if i > 0 || k > 0 then pA == PtrA(l, a) && pB == PtrB(l, a) else pA == 0 && pB == 0
  }

  /** At kernel-point count 0 the loops are at the first kernel point. */
  lemma FirstPoint(a: InitArgs, kd: int, kh: int, kw: int)
    requires a.kdB <= kd < a.kdE && a.khB <= kh < a.khE && a.kwB <= kw < a.kwE
    requires ((kd - a.kdB) * Span(a.khB, a.khE) + (kh - a.khB)) * Span(a.kwB, a.kwE) + (kw - a.kwB) == 0
    ensures kd == a.kdB && kh == a.khB && kw == a.kwB
  {
    var nh, nw := Span(a.khB, a.khE), Span(a.kwB, a.kwE);
    var dh := (kd - a.kdB) * nh + (kh - a.khB);
    MulLe(0, kd - a.kdB, nh);
    if dh > 0 {
      MulAtLeast(nw, dh);
    }
    assert dh == 0;
    if kd > a.kdB {
      MulAtLeast(nh, kd - a.kdB);
    }
  }

  /** The base pointers are set at element 0 under `need_A_B` and hold their final values from then on. */
  lemma PtrsStep(l: InitLayout, a: InitArgs, i: int, kd: int, kh: int, kw: int, k: int,
                 pA: int, pB: int, pA': int, pB': int)
    requires ArgsOk(l, a) && Visited(a, i, kd, kh, kw)
    requires k == ((kd - a.kdB) * Span(a.khB, a.khE) + (kh - a.khB)) * Span(a.kwB, a.kwE) + (kw - a.kwB)
    requires PtrsAt(l, a, i, k, pA, pB)
    requires var first := i * a.kL + k == 0 && NeedAB(l);
             pA' == (if first then AAddr(l, a, i, kd, kh, kw) else pA) &&
             pB' == (if first then BAddr(l, a, i, kd, kh, kw) else pB)
    ensures pA' == PtrA(l, a) && pB' == PtrB(l, a) && PtrsAt(l, a, i, k + 1, pA', pB')
  {
    Decode(a, i, kd, kh, kw);
    if i > 0 {
      MulAtLeast(a.kL, i);
    }
    if i == 0 && k == 0 {
      FirstPoint(a, kd, kh, kw);
    }
  }

  /** The write of one batch element. */
  method WriteElem(l: InitLayout, a: InitArgs, batch: array<BatchElem>, ghost o: seq<BatchElem>,
                   i: int, kd: int, kh: int, kw: int, k: int, pA: int, pB: int)
    requires ArgsOk(l, a) && Visited(a, i, kd, kh, kw) && a.nIcBlocks * a.kL <= batch.Length
    requires k == ((kd - a.kdB) * Span(a.khB, a.khE) + (kh - a.khB)) * Span(a.kwB, a.kwE) + (kw - a.kwB)
    requires pA == PtrA(l, a) && pB == PtrB(l, a)
    requires Filled(l, a, batch[..], o, i * a.kL + k)
    modifies batch
    ensures Filled(l, a, batch[..], o, i * a.kL + k + 1)
  {
    FinalAtVisited(l, a, o, i, kd, kh, kw);
    var bIdx := i * a.kL + k;
    var e := batch[bIdx];
    if l.brgType == BrgAddr {
      e := e.(a := AAddr(l, a, i, kd, kh, kw), b := BAddr(l, a, i, kd, kh, kw));
    } else if l.brgType == BrgOffs || l.brgType == BrgStaticOffs {
      e := e.(a := AAddr(l, a, i, kd, kh, kw) - pA, b := BAddr(l, a, i, kd, kh, kw) - pB);
    }
    if l.maxVpad != 0 {
      e := e.(top := a.tops[kw], bottom := a.bottoms[kw]);
    }
    batch[bIdx] := e;
  }

  /** The `kw` loop at (i, kd, kh). */
  method FillKw(l: InitLayout, a: InitArgs, batch: array<BatchElem>, ghost o: seq<BatchElem>,
                i: int, kd: int, kh: int, k0: int, pA0: int, pB0: int) returns (k: int, pA: int, pB: int)
    requires ArgsOk(l, a) && 0 <= i < a.nIcBlocks && a.kdB <= kd < a.kdE && a.khB <= kh < a.khE
    requires a.nIcBlocks * a.kL <= batch.Length
    requires k0 == ((kd - a.kdB) * Span(a.khB, a.khE) + (kh - a.khB)) * Span(a.kwB, a.kwE)
    requires PtrsAt(l, a, i, k0, pA0, pB0) && Filled(l, a, batch[..], o, i * a.kL + k0)
    modifies batch
    ensures k == k0 + Span(a.kwB, a.kwE)
    ensures PtrsAt(l, a, i, k, pA, pB) && Filled(l, a, batch[..], o, i * a.kL + k)
  {
    k, pA, pB := k0, pA0, pB0;
    var kw := a.kwB;
    while kw < a.kwE
      invariant a.kwB <= kw <= Max(a.kwB, a.kwE)
      invariant k == k0 + (kw - a.kwB)
      invariant PtrsAt(l, a, i, k, pA, pB) && Filled(l, a, batch[..], o, i * a.kL + k)
    {
      var bIdx := i * a.kL + k;
      ghost var pA1, pB1 := pA, pB;
      if bIdx == 0 && l.useUker && (l.brgType == BrgOffs || l.brgType == BrgStaticOffs) {
        pA := AAddr(l, a, i, kd, kh, kw);
        pB := BAddr(l, a, i, kd, kh, kw);
      }
      PtrsStep(l, a, i, kd, kh, kw, k, pA1, pB1, pA, pB);
      WriteElem(l, a, batch, o, i, kd, kh, kw, k, pA, pB);
      kw := kw + 1;
      k := k + 1;
    }
  }

  /** The `kh` loop at (i, kd). */
  method FillKh(l: InitLayout, a: InitArgs, batch: array<BatchElem>, ghost o: seq<BatchElem>,
                i: int, kd: int, k0: int, pA0: int, pB0: int) returns (k: int, pA: int, pB: int)
    requires ArgsOk(l, a) && 0 <= i < a.nIcBlocks && a.kdB <= kd < a.kdE
    requires a.nIcBlocks * a.kL <= batch.Length
    requires k0 == (kd - a.kdB) * Span(a.khB, a.khE) * Span(a.kwB, a.kwE)
    requires PtrsAt(l, a, i, k0, pA0, pB0) && Filled(l, a, batch[..], o, i * a.kL + k0)
    modifies batch
    ensures k == (kd + 1 - a.kdB) * Span(a.khB, a.khE) * Span(a.kwB, a.kwE)
    ensures PtrsAt(l, a, i, k, pA, pB) && Filled(l, a, batch[..], o, i * a.kL + k)
  {
    ghost var nh, nw := Span(a.khB, a.khE), Span(a.kwB, a.kwE);
    k, pA, pB := k0, pA0, pB0;
    var kh := a.khB;
    while kh < a.khE
      invariant a.khB <= kh <= Max(a.khB, a.khE)
      invariant k == ((kd - a.kdB) * nh + (kh - a.khB)) * nw
      invariant PtrsAt(l, a, i, k, pA, pB) && Filled(l, a, batch[..], o, i * a.kL + k)
    {
      k, pA, pB := FillKw(l, a, batch, o, i, kd, kh, k, pA, pB);
      assert ((kd - a.kdB) * nh + (kh - a.khB)) * nw + nw == ((kd - a.kdB) * nh + (kh + 1 - a.khB)) * nw;
      kh := kh + 1;
    }
    assert ((kd - a.kdB) * nh + nh) * nw == (kd + 1 - a.kdB) * nh * nw;
  }

  /** The `kd` loop of channel block `i`, from kernel-point count 0 to `Count(a)`. */
  method FillKd(l: InitLayout, a: InitArgs, batch: array<BatchElem>, ghost o: seq<BatchElem>,
                i: int, pA0: int, pB0: int) returns (k: int, pA: int, pB: int)
    requires ArgsOk(l, a) && 0 <= i < a.nIcBlocks && a.nIcBlocks * a.kL <= batch.Length
    requires PtrsAt(l, a, i, 0, pA0, pB0) && Filled(l, a, batch[..], o, i * a.kL)
    modifies batch
    ensures k == Count(a)
    ensures PtrsAt(l, a, i, k, pA, pB) && Filled(l, a, batch[..], o, i * a.kL + k)
  {
    ghost var nh, nw := Span(a.khB, a.khE), Span(a.kwB, a.kwE);
    k, pA, pB := 0, pA0, pB0;
    var kd := a.kdB;
    while kd < a.kdE
      invariant a.kdB <= kd <= Max(a.kdB, a.kdE)
      invariant k == (kd - a.kdB) * nh * nw
      invariant PtrsAt(l, a, i, k, pA, pB) && Filled(l, a, batch[..], o, i * a.kL + k)
    {
      k, pA, pB := FillKh(l, a, batch, o, i, kd, k, pA, pB);
      kd := kd + 1;
    }
  }

  /** The positions of block `i` past its `Count(a)` points are not written. */
  lemma TailUntouched(a: InitArgs, i: int, j: int)
    requires Count(a) <= a.kL && 0 <= i && i * a.kL + Count(a) <= j < (i + 1) * a.kL
    ensures !Touched(a, j)
  {
    assert (i + 1) * a.kL == i * a.kL + a.kL;
    DivModOf(i, j - i * a.kL, a.kL);
  }

  /** Skipping the unwritten tail of block `i` keeps the batch filled. */
  lemma SkipTail(l: InitLayout, a: InitArgs, s: seq<BatchElem>, o: seq<BatchElem>, i: int)
    requires ArgsOk(l, a) && 0 <= i
    requires Filled(l, a, s, o, i * a.kL + Count(a))
    ensures Filled(l, a, s, o, (i + 1) * a.kL)
  {
    var lo, hi := i * a.kL + Count(a), (i + 1) * a.kL;
    assert lo <= hi by { MulSucc(i, a.kL); }
    forall j | 0 <= j < |s|
      ensures s[j] == (if j < hi then Final(l, a, o, j) else o[j])
    {
      if lo <= j < hi {
        TailUntouched(a, i, j);
        FinalUntouched(l, a, o, j);
      }
    }
  }

  /** A position the call does not write keeps its old element. */
  lemma FinalUntouched(l: InitLayout, a: InitArgs, o: seq<BatchElem>, j: int)
    requires VpadOk(l, a) && 0 <= j < |o| && !Touched(a, j)
    ensures Final(l, a, o, j) == o[j]
  {
  }

  /**
   * `init_batch`: every visited point's element at `b_idx = i_icb * k_l + k`
   * is rewritten as `ElemAt` says, and every other element is unchanged.
   */
  method InitBatch(l: InitLayout, a: InitArgs, batch: array<BatchElem>)
    requires ArgsOk(l, a) && a.nIcBlocks * a.kL <= batch.Length
    modifies batch
    ensures forall j :: 0 <= j < batch.Length ==> batch[j] == Final(l, a, old(batch[..]), j)
  {
    ghost var o := batch[..];
    var pA, pB := 0, 0;
    var i := 0;
    while i < a.nIcBlocks
      invariant 0 <= i <= Max(0, a.nIcBlocks)
      invariant PtrsAt(l, a, i, 0, pA, pB) && Filled(l, a, batch[..], o, i * a.kL)
    {
      var k;
      k, pA, pB := FillKd(l, a, batch, o, i, pA, pB);
      SkipTail(l, a, batch[..], o, i);
      i := i + 1;
    }
    forall j | 0 <= j < batch.Length
      ensures batch[j] == Final(l, a, o, j)
    {
      if j >= i * a.kL {
        assert !Touched(a, j) by {
          if a.kL > 0 && a.nIcBlocks > 0 {
            MulLe(a.nIcBlocks, i, a.kL);
          }
        }
      }
    }
  }
}
