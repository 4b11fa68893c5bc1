/**
 * k remainders of the GEMM k-loop: the increments and counter immediates
 * of the incremental remainder load that stages A or B through SLM, and
 * the flags that switch the A/B and SLM copies between the main path and
 * the remainder path.
 */
module KLoopRem {
  import opened Common

  /** What the incremental remainder load reads from the strategy and state. */
  datatype RemLoad = RemLoad(
    h: nat,                // the k-loop iteration
    unrollKSLM: nat,       // k extent of one SLM copy
    kxSlm: nat,            // ka_slm / kb_slm, the k extent one thread loads
    addrSets: nat,         // Xi_addrsK.size()
    kInterleave: bool,
    chunk: nat,            // kInterleaveChunk
    wgK: nat,              // wg[LoopK]
    keepTogether: bool,    // keepAddrTogether as passed in
    countUp: bool)         // kSLMCountUp

  predicate RemLoadOk(p: RemLoad) {
    p.addrSets >= 1 && (p.kInterleave ==> p.chunk > 0)
  }

  /** `kSLMSign`. */
  function Sign(p: RemLoad): int {
    if p.countUp then 1 else -1
  }

  /** `v * kSLMSign`, written without a product. */
  function Signed(p: RemLoad, v: int): (r: int)
    ensures r == v * Sign(p)
  {
    if p.countUp then v else -v
  }

  /** `kx_stride`: one copy, or a whole interleave round at the end of a chunk. */
  function KxStride(p: RemLoad): int
    requires RemLoadOk(p)
  {
    if p.kInterleave && p.h % p.chunk >= p.chunk - p.unrollKSLM then p.unrollKSLM + p.chunk * (p.wgK - 1)
    else p.unrollKSLM
  }

  /** `keepAddrTogether` once restricted to several address sets. */
  function KeepTogether(p: RemLoad): bool {
    p.keepTogether && p.addrSets > 1
  }

  /** `kx_inc` of step `hh`. */
  function KxInc(p: RemLoad, hh: nat): int
    requires RemLoadOk(p)
  {
    if KeepTogether(p) then 0
    else if p.addrSets > 1 then KxStride(p)
    else if hh + 1 != p.kxSlm then 1
    else KxStride(p) - p.kxSlm + 1
  }

  /** The immediate added to the k counter before the steps. */
  function FirstImm(p: RemLoad): int {
    Signed(p, if p.kxSlm > 1 then 1 else p.unrollKSLM)
  }

  /** The immediate `nextCheck` adds once `hhRem` steps remain (only when some do). */
  function NextImm(p: RemLoad, hhRem: nat): int {
    Signed(p, if hhRem == 1 then p.unrollKSLM - p.kxSlm + 1 else 1)
  }

  function Sum(s: seq<int>): int {
    if s == [] then 0 else Sum(s[..|s| - 1]) + s[|s| - 1]
  }

  lemma SumSnoc(s: seq<int>, x: int)
    ensures Sum(s + [x]) == Sum(s) + x
  {
    assert (s + [x])[..|s|] == s;
  }

  /** The k counter immediates added after `j` of `kx` steps, as a closed form. */
  function ImmsSoFar(p: RemLoad, j: nat): int {
    Signed(p, if j + 2 <= p.kxSlm then 1 + j else p.unrollKSLM)
  }

  /** One step of the counter immediates: `nextCheck` adds exactly what the closed form grows by. */
  lemma ImmsStep(p: RemLoad, hh: nat)
    requires hh < p.kxSlm
    ensures p.kxSlm - hh - 1 > 0 ==> ImmsSoFar(p, hh) + NextImm(p, p.kxSlm - hh - 1) == ImmsSoFar(p, hh + 1)
    ensures p.kxSlm - hh - 1 == 0 ==> ImmsSoFar(p, hh) == ImmsSoFar(p, hh + 1)
  {
  }

  /** One step of the address increments with a single address set. */
  lemma IncsStep(p: RemLoad, hh: nat)
    requires RemLoadOk(p) && hh < p.kxSlm
    ensures p.addrSets == 1 ==>
              hh + KxInc(p, hh) == if hh + 1 < p.kxSlm then hh + 1 else KxStride(p)
    ensures KeepTogether(p) ==> KxInc(p, hh) == 0
  {
  }

  /**
   * `gemmAiBiRemLoadInc` in incremental mode: the counter immediates and the
   * address increments in emission order. The immediates always add up to
   * one SLM copy; with one address set the increments add up to the stride.
   */
  method RemLoadInc(p: RemLoad) returns (imms: seq<int>, incs: seq<int>)
    requires RemLoadOk(p)
    ensures |imms| == Max(p.kxSlm, 1)
    ensures imms[0] == FirstImm(p)
    ensures forall j :: 1 <= j < p.kxSlm ==> imms[j] == NextImm(p, p.kxSlm - j)
    ensures |incs| == p.kxSlm + (if KeepTogether(p) then 1 else 0)
    ensures forall hh :: 0 <= hh < p.kxSlm ==> incs[hh] == KxInc(p, hh)
    ensures KeepTogether(p) ==> incs[p.kxSlm] == p.unrollKSLM
    ensures Sum(imms) == p.unrollKSLM * Sign(p)
    ensures p.addrSets == 1 && p.kxSlm >= 1 ==> Sum(incs) == KxStride(p)
    ensures KeepTogether(p) ==> Sum(incs) == p.unrollKSLM
  {
    imms := [FirstImm(p)];
    incs := [];
    var hh := 0;
    while hh < p.kxSlm
      invariant 0 <= hh <= p.kxSlm
      invariant |imms| == 1 + Min(hh, Max(p.kxSlm - 1, 0)) && imms[0] == FirstImm(p)
      invariant forall j :: 1 <= j < |imms| ==> imms[j] == NextImm(p, p.kxSlm - j)
      invariant |incs| == hh && forall j :: 0 <= j < hh ==> incs[j] == KxInc(p, j)
      invariant Sum(imms) == ImmsSoFar(p, hh)
      invariant p.addrSets == 1 && p.kxSlm >= 1 ==> Sum(incs) == if hh < p.kxSlm then hh else KxStride(p)
      invariant KeepTogether(p) ==> Sum(incs) == 0
    {
      var hhRem := p.kxSlm - hh - 1;
      ImmsStep(p, hh);
      if hhRem > 0 {
        SumSnoc(imms, NextImm(p, hhRem));
        imms := imms + [NextImm(p, hhRem)];
      }
      IncsStep(p, hh);
      SumSnoc(incs, KxInc(p, hh));
      incs := incs + [KxInc(p, hh)];
      hh := hh + 1;
    }
    if KeepTogether(p) {
      SumSnoc(incs, p.unrollKSLM);
      incs := incs + [p.unrollKSLM];
    }
  }

  /** The remainder flags of the generator state and the facts they depend on. */
  class RemFlags {
    var remActiveA: bool      // state.remActiveA
    var remActiveB: bool      // state.remActiveB
    var remActiveSLM: bool    // state.remActiveSLM
    const aDescRem: bool      // state.A_descRem
    const bDescRem: bool      // state.B_descRem
    const aiLateKRem: bool    // state.Ai_lateKRem
    const biLateKRem: bool    // state.Bi_lateKRem

    constructor (aDesc: bool, bDesc: bool, aiLate: bool, biLate: bool)
      ensures !remActiveA && !remActiveB && !remActiveSLM
      ensures aDescRem == aDesc && bDescRem == bDesc && aiLateKRem == aiLate && biLateKRem == biLate
    {
      remActiveA, remActiveB, remActiveSLM := false, false, false;
      aDescRem, bDescRem, aiLateKRem, biLateKRem := aDesc, bDesc, aiLate, biLate;
    }

    /**
     * The flag transitions of `kLoopActivateABRemainder`: a request that
     * matches a flag drops that side; switching an active remainder back off
     * is not supported; descriptor remainders on both sides are not supported.
     */
    method ActivateABRemainder(active: bool, doA: bool, doB: bool) returns (res: Outcome)
      modifies this
      ensures var dA := doA && old(remActiveA) != active;
              var dB := doB && old(remActiveB) != active;
              (!active && (dA || dB) ==> res.Fail? && remActiveA == old(remActiveA) && remActiveB == old(remActiveB)) &&
              (!(!active && (dA || dB)) ==>
                 remActiveA == (if dA then active else old(remActiveA)) &&
                 remActiveB == (if dB then active else old(remActiveB)) &&
                 (res.Fail? <==> (dA || dB) && aDescRem && bDescRem))
      ensures old(remActiveA) ==> remActiveA
      ensures old(remActiveB) ==> remActiveB
      ensures remActiveSLM == old(remActiveSLM)
    {
      var a, b := doA, doB;
      if remActiveA == active {
        a := false;
      }
      if remActiveB == active {
        b := false;
      }
      if !active && ((a && remActiveA) || (b && remActiveB)) {
        return Fail("deactivating an active A/B remainder");
      }
      if !a && !b {
        return Done;
      }
      if a {
        remActiveA := active;
      }
      if b {
        remActiveB := active;
      }
      if aDescRem && bDescRem {
        return Fail("descriptor remainders on both A and B");
      }
      return Done;
    }

    /**
     * The flag transition of `kLoopActivateSLMRemainder`: a request that
     * matches the flag changes nothing; switching it off fails while a late
     * k remainder is in use.
     */
    method ActivateSLMRemainder(active: bool) returns (res: Outcome)
      modifies this
      ensures old(remActiveSLM) == active ==> res.Done? && remActiveSLM == active
      ensures old(remActiveSLM) != active && !active && (aiLateKRem || biLateKRem) ==>
                res.Fail? && remActiveSLM == old(remActiveSLM)
      ensures old(remActiveSLM) != active && !(!active && (aiLateKRem || biLateKRem)) ==>
                res.Done? && remActiveSLM == active
      ensures remActiveA == old(remActiveA) && remActiveB == old(remActiveB)
    {
      if remActiveSLM == active {
        return Done;
      }
      if !active && remActiveSLM && (aiLateKRem || biLateKRem) {
        return Fail("deactivating the SLM remainder with a late k remainder");
      }
      remActiveSLM := active;
      return Done;
    }

    /**
     * The short-loop phase starts over without remainders: unlike the
     * activations above, it switches every flag off directly.
     */
    method ResetForShortLoop()
      modifies this
      ensures !remActiveA && !remActiveB && !remActiveSLM
    {
      remActiveA, remActiveB, remActiveSLM := false, false, false;
    }
  }
}
