/**
 * The batch-size table of the brgemm convolution (`batchsizes` in
 * `pd_t::init`): every distinct kernel depth/height range an output point
 * can need gets the next brgemm batch-size slot, in first-seen order.
 */
module ConvBatch {
  import opened Common
  import ConvRange

  /** The key `get_bs_idx` receives: `[kdB, kdE) x [khB, khE)`. */
  datatype BsKey = BsKey(kdB: int, kdE: int, khB: int, khE: int)

  /** The shape the batch-size loop reads. */
  datatype BatchGeom = BatchGeom(
    useUker: bool,                                  // jcp.use_uker
    osBlocking: bool,                               // jcp.is_os_blocking
    od: nat, oh: nat,                               // jcp.od, jcp.oh
    sd: int, fp: int, dd: int, kd: nat, id: int,    // SD, FP, DD, KD, ID
    sh: int, tp: int, dh: int, kh: nat, ih: int,    // SH, TP, DH, KH, IH
    kdBlock: int, khBlock: int,                     // KD_BLOCK, KH_BLOCK
    kw: int)                                        // jcp.kw

  predicate GeomOk(g: BatchGeom) {
    g.dd > 0 && g.dh > 0
  }

  /** `KD * KD * KH * KH`, the length of the table. */
  function TableSize(g: BatchGeom): nat {
    g.kd * g.kd * g.kh * g.kh
  }

  /** The keys the index layout is defined for: `kdB, kdE - 1 < KD` and `khB, khE - 1 < KH`. */
  predicate InDomain(g: BatchGeom, c: BsKey) {
    0 <= c.kdB < g.kd && 0 < c.kdE <= g.kd && 0 <= c.khB < g.kh && 0 < c.khE <= g.kh
  }

  /** The row-major slot of a key in the `KD * KD * KH * KH` table. */
  function BsIdx(g: BatchGeom, c: BsKey): int {
    ((c.kdB * g.kd + (c.kdE - 1)) * g.kh + c.khB) * g.kh + (c.khE - 1)
  }

  lemma BsIdxInRange(g: BatchGeom, c: BsKey)
    requires InDomain(g, c)
    ensures 0 <= BsIdx(g, c) < TableSize(g)
  {
    var a := c.kdB * g.kd + (c.kdE - 1);
    var b := a * g.kh + c.khB;
    DigitBound(c.kdB, c.kdE - 1, g.kd, g.kd);
    DigitBound(a, c.khB, g.kh, g.kd * g.kd);
    DigitBound(b, c.khE - 1, g.kh, g.kd * g.kd * g.kh);
  }

  /** Distinct keys of the domain have distinct slots. */
  lemma BsIdxInjective(g: BatchGeom, c: BsKey, e: BsKey)
    requires InDomain(g, c) && InDomain(g, e) && BsIdx(g, c) == BsIdx(g, e)
    ensures c == e
  {
    var ac, ae := c.kdB * g.kd + (c.kdE - 1), e.kdB * g.kd + (e.kdE - 1);
    var bc, be := ac * g.kh + c.khB, ae * g.kh + e.khB;
    DigitsEq(bc, c.khE - 1, be, e.khE - 1, g.kh);
    DigitsEq(ac, c.khB, ae, e.khB, g.kh);
    DigitsEq(c.kdB, c.kdE - 1, e.kdB, e.kdE - 1, g.kd);
  }

  /** The key and batch size of output point (iod, ioh), when its batch size is positive. */
  function PointKey(g: BatchGeom, iod: int, ioh: int): (r: Option<BsKey>)
    requires GeomOk(g)
  {
    var d := ConvRange.KRange(iod, g.sd, g.fp, g.dd, g.kd, g.id);
    var h := ConvRange.KRange(ioh, g.sh, g.tp, g.dh, g.kh, g.ih);
    var khS := if g.osBlocking then 0 else h.0;
    var kdL := Min(g.kdBlock, d.1 - d.0);
    var khL := Min(g.khBlock, h.1 - khS);
    if kdL * khL * g.kw <= 0 then None else Some(BsKey(d.0, d.1, khS, h.1))
  }

  /** The keys of row `iod` for `ioh < n`, in loop order. */
  ghost function RowKeys(g: BatchGeom, iod: int, n: nat): seq<BsKey>
    requires GeomOk(g)
  {
    if n == 0 then []
    else
      var k := PointKey(g, iod, n - 1);
      RowKeys(g, iod, n - 1) + (if k.Some? then [k.value] else [])
  }

  /** The keys of rows `iod < m`, in loop order. */
  ghost function AllKeys(g: BatchGeom, m: nat): seq<BsKey>
    requires GeomOk(g)
  {
    if m == 0 then [] else AllKeys(g, m - 1) + RowKeys(g, m - 1, g.oh)
  }

  lemma {:induction false} RowKeysMono(g: BatchGeom, iod: int, n: nat, m: nat)
    requires GeomOk(g) && n <= m
    ensures forall x :: x in RowKeys(g, iod, n) ==> x in RowKeys(g, iod, m)
    decreases m
  {
    if n < m {
      RowKeysMono(g, iod, n, m - 1);
    }
  }

  lemma {:induction false} AllKeysMono(g: BatchGeom, n: nat, m: nat)
    requires GeomOk(g) && n <= m
    ensures forall x :: x in AllKeys(g, n) ==> x in AllKeys(g, m)
    decreases m
  {
    if n < m {
      AllKeysMono(g, n, m - 1);
    }
  }

  /**
   * The table describes the first-seen order `d`: key `d[j]` sits at its
   * slot with value `j`, and every other slot holds -1.
   */
  ghost predicate TableOf(g: BatchGeom, table: seq<int>, d: seq<BsKey>) {
    |table| == TableSize(g) &&
    (forall j :: 0 <= j < |d| ==> InDomain(g, d[j]) && 0 <= BsIdx(g, d[j]) < |table| && table[BsIdx(g, d[j])] == j) &&
    (forall i :: 0 <= i < |table| ==> table[i] == -1 || (0 <= table[i] < |d| && BsIdx(g, d[table[i]]) == i))
  }

  /** The lookup `batchsizes[bs_idx] == -1` of a key tells whether it was seen. */
  lemma TableLookup(g: BatchGeom, table: seq<int>, d: seq<BsKey>, c: BsKey)
    requires TableOf(g, table, d) && InDomain(g, c)
    ensures 0 <= BsIdx(g, c) < |table|
    ensures table[BsIdx(g, c)] == -1 <==> c !in d
    ensures c in d ==> d[table[BsIdx(g, c)]] == c
  {
    BsIdxInRange(g, c);
    var i := BsIdx(g, c);
    if table[i] != -1 {
      BsIdxInjective(g, c, d[table[i]]);
    }
    if c in d {
      var j :| 0 <= j < |d| && d[j] == c;
      assert table[i] == j;
    }
  }

  /** One step of the loop: a new key takes slot value `bs_c` and the counter grows. */
  method AddKey(g: BatchGeom, table: array<int>, ghost d: seq<BsKey>, c: BsKey, bsC: int) returns (bsC2: int)
    requires TableOf(g, table[..], d) && bsC == |d| && InDomain(g, c)
    modifies table
    ensures TableOf(g, table[..], if c in d then d else d + [c])
    ensures bsC2 == |if c in d then d else d + [c]|
  {
    TableLookup(g, table[..], d, c);
    var idx := BsIdx(g, c);
    if table[idx] == -1 {
      table[idx] := bsC;
      bsC2 := bsC + 1;
      ghost var d2 := d + [c];
      forall j | 0 <= j < |d2|
        ensures InDomain(g, d2[j]) && 0 <= BsIdx(g, d2[j]) < table.Length && table[BsIdx(g, d2[j])] == j
      {
        if j < |d| {
          assert d2[j] == d[j];
        }
      }
    } else {
      bsC2 := bsC;
    }
  }

  /** One output point (iod, ioh) of the batch-size loop. */
  method FillPoint(g: BatchGeom, table: array<int>, iod: nat, ioh: nat, ghost keys0: seq<BsKey>, ghost d0: seq<BsKey>, bsC0: int)
    returns (ok: bool, bsC: int, ghost keys: seq<BsKey>, ghost d: seq<BsKey>)
    requires GeomOk(g) && ioh < g.oh
    requires keys0 == AllKeys(g, iod) + RowKeys(g, iod, ioh) && d0 == Dedup(keys0)
    requires TableOf(g, table[..], d0) && bsC0 == |d0|
    requires forall c :: c in keys0 ==> InDomain(g, c)
    modifies table
    ensures ok ==> keys == AllKeys(g, iod) + RowKeys(g, iod, ioh + 1) && d == Dedup(keys)
    ensures ok ==> TableOf(g, table[..], d) && bsC == |d|
    ensures ok ==> forall c :: c in keys ==> InDomain(g, c)
    ensures !ok ==> exists c :: c in RowKeys(g, iod, ioh + 1) && !InDomain(g, c)
  {
    keys, d, bsC := keys0, d0, bsC0;
    var key := PointKey(g, iod, ioh);
    ghost var rest := if key.Some? then [key.value] else [];
    AppendAssoc(AllKeys(g, iod), RowKeys(g, iod, ioh), rest);
    if key.Some? {
      var c := key.value;
      if !InDomain(g, c) {
        assert c in RowKeys(g, iod, ioh + 1);
        return false, bsC, keys, d;
      }
      DedupSnoc(keys, c);
      bsC := AddKey(g, table, d, c, bsC);
      d := if c in d then d else d + [c];
      keys := keys + [c];
    }
    ok := true;
  }

  /** A key of a prefix of row `iod` is a key of the whole loop. */
  lemma KeyInAll(g: BatchGeom, iod: nat, n: nat)
    requires GeomOk(g) && iod < g.od && n <= g.oh
    ensures forall x :: x in RowKeys(g, iod, n) ==> x in AllKeys(g, g.od)
  {
    RowKeysMono(g, iod, n, g.oh);
    AllKeysMono(g, iod + 1, g.od);
  }

  /** The `ioh` loop for output depth `iod`. */
  method FillRow(g: BatchGeom, table: array<int>, iod: nat, ghost keys0: seq<BsKey>, ghost d0: seq<BsKey>, bsC0: int)
    returns (ok: bool, bsC: int, ghost keys: seq<BsKey>, ghost d: seq<BsKey>)
    requires GeomOk(g) && iod < g.od
    requires keys0 == AllKeys(g, iod) && d0 == Dedup(keys0)
    requires TableOf(g, table[..], d0) && bsC0 == |d0|
    requires forall c :: c in keys0 ==> InDomain(g, c)
    modifies table
    ensures ok ==> keys == AllKeys(g, iod + 1) && d == Dedup(keys)
    ensures ok ==> TableOf(g, table[..], d) && bsC == |d|
    ensures ok ==> forall c :: c in keys ==> InDomain(g, c)
    ensures !ok ==> exists c :: c in AllKeys(g, g.od) && !InDomain(g, c)
  {
    keys, d, bsC := keys0, d0, bsC0;
    var ioh := 0;
    while ioh < g.oh
      invariant 0 <= ioh <= g.oh
      invariant keys == AllKeys(g, iod) + RowKeys(g, iod, ioh) && d == Dedup(keys)
      invariant TableOf(g, table[..], d) && bsC == |d|
      invariant forall c :: c in keys ==> InDomain(g, c)
    {
      ok, bsC, keys, d := FillPoint(g, table, iod, ioh, keys, d, bsC);
      if !ok {
        KeyInAll(g, iod, ioh + 1);
        return;
      }
      ioh := ioh + 1;
    }
    ok := true;
  }

  /** The `iod` loop with the micro-kernel, over a table of -1 entries. */
  method FillAll(g: BatchGeom, table: array<int>) returns (ok: bool, bsC: int)
    requires GeomOk(g) && TableOf(g, table[..], [])
    modifies table
    ensures ok ==> TableOf(g, table[..], Dedup(AllKeys(g, g.od))) && bsC == |Dedup(AllKeys(g, g.od))|
    ensures !ok ==> exists c :: c in AllKeys(g, g.od) && !InDomain(g, c)
  {
    bsC := 0;
    ghost var keys: seq<BsKey> := [];
    ghost var d: seq<BsKey> := [];
    var iod := 0;
    while iod < g.od
      invariant 0 <= iod <= g.od
      invariant keys == AllKeys(g, iod) && d == Dedup(keys)
      invariant TableOf(g, table[..], d) && bsC == |d|
      invariant forall c :: c in keys ==> InDomain(g, c)
    {
      ok, bsC, keys, d := FillRow(g, table, iod, keys, d, bsC);
      if !ok {
        return;
      }
      iod := iod + 1;
    }
    ok := true;
  }

  /** Without the micro-kernel: the one key `[0, KD) x [0, KH)` takes slot value 0. */
  method FillSingle(g: BatchGeom) returns (r: Result<(seq<int>, int)>)
    ensures g.kd > 0 && g.kh > 0 ==> r.Ok? && r.value.1 == 1 && TableOf(g, r.value.0, [BsKey(0, g.kd, 0, g.kh)])
    ensures r.Err? ==> g.kd == 0 || g.kh == 0
  {
    var table := EmptyTable(g);
    var c := BsKey(0, g.kd, 0, g.kh);
    if !InDomain(g, c) {
      return Err("batchsizes[get_bs_idx(0, KD, 0, KH)] is outside the table");
    }
    var bsC := AddKey(g, table, [], c, 0);
    assert (if c in [] then [] else [] + [c]) == [c];
    return Ok((table[..], bsC));
  }

  /** `batchsizes.resize(KD * KD * KH * KH, -1)`: a table that describes no key. */
  method EmptyTable(g: BatchGeom) returns (table: array<int>)
    ensures fresh(table) && TableOf(g, table[..], [])
  {
    table := new int[TableSize(g)](_ => -1);
  }

  /**
   * The `batchsizes` fill of `pd_t::init`: a table of `KD * KD * KH * KH`
   * entries, -1 except at the slots of the keys seen, and the count `bs_c`.
   * With the micro-kernel the keys are those of the output points with a
   * positive batch size, numbered in first-seen order; without it the one
   * key `[0, KD) x [0, KH)` gets 0.
   */
  method FillBatchSizes(g: BatchGeom) returns (r: Result<(seq<int>, int)>)
    requires GeomOk(g)
    ensures g.useUker && r.Ok? ==> TableOf(g, r.value.0, Dedup(AllKeys(g, g.od)))
    ensures g.useUker && r.Ok? ==> r.value.1 == |Dedup(AllKeys(g, g.od))|
    ensures g.useUker && r.Err? ==>
              g.kdBlock == 0 || g.khBlock == 0 || g.kd % g.kdBlock != 0 || g.kh % g.khBlock != 0 ||
              exists c :: c in AllKeys(g, g.od) && !InDomain(g, c)
    ensures !g.useUker && g.kd > 0 && g.kh > 0 ==> r.Ok? && r.value.1 == 1 && TableOf(g, r.value.0, [BsKey(0, g.kd, 0, g.kh)])
  {
    if g.useUker {
      if g.kdBlock == 0 || g.khBlock == 0 || g.kd % g.kdBlock != 0 || g.kh % g.khBlock != 0 {
        return Err("assert(KD % KD_BLOCK == 0) or assert(KH % KH_BLOCK == 0)");
      }
      var table := EmptyTable(g);
      var ok, bsC := FillAll(g, table);
      if !ok {
        return Err("batchsizes[get_bs_idx(kd_s, kd_f, kh_s, kh_f)] is outside the table");
      }
      return Ok((table[..], bsC));
    } else {
      r := FillSingle(g);
    }
  }
}
