/**
 * Synchronisation of the SLM staging ring in the GEMM k-loop: the fences,
 * barrier messages and barrier waits that `kLoopBarrier` and the SLM store
 * actions emit, the lazily built barrier header, the fence temporary that
 * may borrow the header register, the compare elimination of `JumpIfLT`
 * and the read-suppression workaround. Emitted code is an abstract trace of
 * instructions; barriers are events of that trace, not threads.
 */
module KLoopSync {
  import opened Common

  /** `KBarrierType`. */
  datatype BarrierType = Normal | Signal | Wait

  /** An emitted instruction, reduced to what the synchronisation protocol cares about. */
  datatype Instr =
    | SlmFence(temp: nat)            // slmfence, writing register `temp`
    | FenceWait                      // fencewait
    | HeaderInit(header: nat)        // barrierheader, writing register `header`
    | BarrierMsg(header: nat)        // barriermsg with the unnamed barrier header
    | BarrierWait                    // barrierwait
    | NamedMsg(which: nat)           // barriermsg with barrierHeaderM (0) or barrierHeaderN (1)
    | NamedWait(which: nat)          // sync.bar on barrierM (0) or barrierN (1)
    | Store                          // storeMatrix into SLM
    | Sum                            // accumulateSum
    | WrDep                          // wrdepRanges
    | Cmp(thresh: int)               // cmp (lt) K, thresh into the loop flag
    | Jmp(target: int)               // jmpi on the loop flag
    | FlagSet                        // any other write of the loop flag (cmp or add with a condition)
    | KAdd                           // an update of the remaining count K that leaves the flag alone
    | LoopJmp                        // jmpi to a label of the loop itself (top, bottom, peel)
    | ReadSuppression                // doReadSuppressionWA

  /**
   * The kinds of the trace: fence, fence wait, barrier message, barrier
   * wait, SLM store, and a write of the loop flag or of K.
   */
  datatype Kind = KF | KFW | KM | KW | KS | KC

  function KindOf(x: Instr): seq<Kind> {
    match x
    case SlmFence(_) => [KF]
    case FenceWait => [KFW]
    case BarrierMsg(_) => [KM]
    case NamedMsg(_) => [KM]
    case BarrierWait => [KW]
    case NamedWait(_) => [KW]
    case Store => [KS]
    case Cmp(_) => [KC]
    case FlagSet => [KC]
    case KAdd => [KC]
    case _ => []
  }

  /** Emitted code, newest instruction last. */
  datatype Code = Nil | Snoc(init: Code, last: Instr)

  /** The code `a` followed by the code `b`. */
  function App(a: Code, b: Code): Code {
    match b
    case Nil => a
    case Snoc(i, x) => Snoc(App(a, i), x)
  }

  lemma {:induction false} AppAssoc(a: Code, b: Code, c: Code)
    ensures App(App(a, b), c) == App(a, App(b, c))
  {
    match c
    case Nil =>
    case Snoc(i, x) => AppAssoc(a, b, i);
  }

  /** The synchronisation kinds of `t`, in order. */
  function Kinds(t: Code): seq<Kind> {
    match t
    case Nil => []
    case Snoc(i, x) => Kinds(i) + KindOf(x)
  }

  lemma {:induction false} KindsApp(a: Code, b: Code)
    ensures Kinds(App(a, b)) == Kinds(a) + Kinds(b)
  {
    match b
    case Nil =>
    case Snoc(i, x) =>
      KindsApp(a, i);
      assert Kinds(a) + Kinds(i) + KindOf(x) == Kinds(a) + (Kinds(i) + KindOf(x));
  }

  function Rep(k: Kind, n: nat): (r: seq<Kind>)
    ensures |r| == n && forall i :: 0 <= i < n ==> r[i] == k
  {
    if n == 0 then [] else Rep(k, n - 1) + [k]
  }

  /** The strategy and hardware facts the protocol reads. */
  datatype SyncConfig = SyncConfig(
    nbM: bool, nbN: bool,            // named barriers on the m / n loop
    hwBeforeXeHPG: bool,             // hw < HW::XeHPG
    strictFence: bool,               // strategy.strictFence
    aCopies: int, bCopies: int,      // A_copies, B_copies
    slmFenceWARWA: bool,             // strategy.slmFenceWARWA
    slmA: bool, slmB: bool,          // A / B staged through SLM
    slmASums: bool, slmBSums: bool,  // sums accumulated from the SLM copy
    slmBuffers: int,                 // strategy.slmBuffers, the ring depth
    r0IsARF: bool)                   // r0_info is an architecture register

  /** Messages (and waits) one barrier takes: one unnamed, or one per named barrier. */
  function NbCount(c: SyncConfig): nat {
    if !c.nbM && !c.nbN then 1 else (if c.nbM then 1 else 0) + (if c.nbN then 1 else 0)
  }

  /** What `kLoopBarrier(withSLMFence, type)` emits. */
  function BarrierKinds(c: SyncConfig, withFence: bool, t: BarrierType): seq<Kind> {
    (if withFence then [KF, KFW] else [])
      + (if t != Wait then Rep(KM, NbCount(c)) else [])
      + (if t != Signal then Rep(KW, NbCount(c)) else [])
  }

  /** A signal sends a message and never waits, a wait waits and never sends, a normal barrier does both; a fence comes first. */
  lemma BarrierKindsByType(c: SyncConfig, withFence: bool, t: BarrierType)
    ensures var k := BarrierKinds(c, withFence, t);
            (t == Signal ==> KM in k && KW !in k) &&
            (t == Wait ==> KW in k && KM !in k) &&
            (t == Normal ==> KM in k && KW in k) &&
            (withFence ==> k[..2] == [KF, KFW] && KF !in k[2..] && KFW !in k[2..])
  {
    var n := NbCount(c);
    var k := BarrierKinds(c, withFence, t);
    assert Rep(KM, n)[0] == KM && Rep(KW, n)[0] == KW;
    if withFence {
      assert k[2..] == (if t != Wait then Rep(KM, n) else []) + (if t != Signal then Rep(KW, n) else []);
    }
  }

  /** `slm1x2xFencedBarrier`: a normal barrier, fenced only for deep global buffering. */
  function Fenced1x2xKinds(c: SyncConfig): seq<Kind> {
    if c.hwBeforeXeHPG && !c.strictFence then BarrierKinds(c, false, Normal)
    else if (c.aCopies > 2 || c.bCopies > 2) && !c.slmFenceWARWA then BarrierKinds(c, true, Normal)
    else BarrierKinds(c, false, Normal)
  }

  function StoreCount(c: SyncConfig): nat {
    (if c.slmA then 1 else 0) + (if c.slmB then 1 else 0)
  }

  /** The synchronisation `doSLMStore` emits before its stores. */
  function StorePre(c: SyncConfig): seq<Kind> {
    if c.slmBuffers == 1 then Fenced1x2xKinds(c) else []
  }

  /** The synchronisation `doSLMStore` emits after its stores. */
  function StorePost(c: SyncConfig): seq<Kind> {
    if c.slmBuffers == 1 then BarrierKinds(c, true, Normal)
    else if c.slmBuffers == 2 then [KF, KFW]
    else if c.slmBuffers == 3 then BarrierKinds(c, true, Signal)
    else []
  }

  /** What `doSLMAfterStore` emits. */
  function AfterStoreKinds(c: SyncConfig): seq<Kind> {
    if c.slmBuffers == 2 then Fenced1x2xKinds(c)
    else if c.slmBuffers == 3 then BarrierKinds(c, false, Wait)
    else if c.slmBuffers == 4 then [KF, KFW] + BarrierKinds(c, false, Signal)
    else []
  }

  /** What `doSLMAfterStore2` emits. */
  function AfterStore2Kinds(c: SyncConfig): seq<Kind> {
    if c.slmBuffers == 4 then BarrierKinds(c, false, Wait) else []
  }

  /**
   * The per-depth protocol: at every ring depth 1 to 4, what follows the
   * stores (in the store, after-store and after-store-2 steps) is a fence
   * and its wait, possibly a second fence, then the barrier messages and
   * then the barrier waits, and nothing else.
   */
  lemma DepthProtocol(c: SyncConfig)
    requires 1 <= c.slmBuffers <= 4
    ensures var post := StorePost(c) + AfterStoreKinds(c) + AfterStore2Kinds(c);
            var n := NbCount(c);
            post == [KF, KFW] + Rep(KM, n) + Rep(KW, n) ||
            post == [KF, KFW] + [KF, KFW] + Rep(KM, n) + Rep(KW, n)
  {
    var n := NbCount(c);
    if c.slmBuffers == 2 {
      assert [KF, KFW] + Fenced1x2xKinds(c) + [] == [KF, KFW] + Rep(KM, n) + Rep(KW, n) ||
             [KF, KFW] + Fenced1x2xKinds(c) + [] == [KF, KFW] + [KF, KFW] + Rep(KM, n) + Rep(KW, n);
    } else if c.slmBuffers == 3 {
      assert StorePost(c) + AfterStoreKinds(c) + [] == [KF, KFW] + Rep(KM, n) + [] + ([] + [] + Rep(KW, n)) + [];
    } else if c.slmBuffers == 4 {
      assert [] + AfterStoreKinds(c) + AfterStore2Kinds(c) == [KF, KFW] + ([] + Rep(KM, n) + []) + ([] + [] + Rep(KW, n));
    }
  }

  /** Depth 1 puts a full barrier before the store as well: reads of the single buffer finish before it is overwritten. */
  lemma DepthOneBarrierBefore(c: SyncConfig)
    requires c.slmBuffers == 1
    ensures KM in StorePre(c) && KW in StorePre(c)
  {
    BarrierKindsByType(c, false, Normal);
    BarrierKindsByType(c, true, Normal);
  }

  /** A register of the model: invalid, or a general register with its identity. */
  datatype Reg = NoReg | Grf(id: nat)

  /** `x` writes register `r`: a fence temporary or a header build. */
  predicate Writes(x: Instr, r: nat) {
    (x.SlmFence? && x.temp == r) || (x.HeaderInit? && x.header == r)
  }

  /** Register `r` holds a barrier header: the last write to it in `t` was `barrierheader`. */
  predicate HeaderLive(t: Code, r: nat) {
    match t
    case Nil => false
    case Snoc(i, x) => if Writes(x, r) then x.HeaderInit? else HeaderLive(i, r)
  }

  /** Every unnamed barrier message of `t` is sent while its header is live. */
  predicate MsgsLive(t: Code) {
    match t
    case Nil => true
    case Snoc(i, x) => MsgsLive(i) && (x.BarrierMsg? ==> HeaderLive(i, x.header))
  }

  /**
   * The threshold `th` such that the loop flag holds "K < th" for the
   * current K: the last write of the flag or of K in `t` was the compare
   * with `th`. None when a later write of the flag or of K intervened.
   */
  function FlagOf(t: Code): Option<int> {
    match t
    case Nil => None
    case Snoc(i, x) =>
      if x.Cmp? then Some(x.thresh)
      else if x.FlagSet? || x.KAdd? then None
      else FlagOf(i)
  }

  /** Code that writes neither the flag nor K leaves the flag's meaning alone. */
  lemma {:induction false} FlagOfApp(a: Code, e: Code)
    requires KC !in Kinds(e)
    ensures FlagOf(App(a, e)) == FlagOf(a)
  {
    match e
    case Nil =>
    case Snoc(i, x) =>
      assert Kinds(e) == Kinds(i) + KindOf(x);
      assert KC !in Kinds(i) && KC !in KindOf(x);
      FlagOfApp(a, i);
  }

  /** `n` writes of the loop flag, as the SLM remainder load emits them. */
  function FlagSets(n: nat): Code {
    if n == 0 then Nil else Snoc(FlagSets(n - 1), FlagSet)
  }

  /** The kinds of `k` other than flag and K writes: its synchronisation. */
  function SyncKinds(k: seq<Kind>): seq<Kind> {
    if |k| == 0 then []
    else SyncKinds(k[..|k| - 1]) + (if k[|k| - 1] == KC then [] else [k[|k| - 1]])
  }

  lemma {:induction false} SyncKindsApp(a: seq<Kind>, b: seq<Kind>)
    ensures SyncKinds(a + b) == SyncKinds(a) + SyncKinds(b)
  {
    if |b| == 0 {
      assert a + b == a;
    } else {
      var b0 := b[..|b| - 1];
      assert (a + b)[..|a + b| - 1] == a + b0;
      SyncKindsApp(a, b0);
    }
  }

  lemma {:induction false} SyncKindsQuiet(a: seq<Kind>)
    requires KC !in a
    ensures SyncKinds(a) == a
  {
    if |a| > 0 {
      assert KC !in a[..|a| - 1];
      SyncKindsQuiet(a[..|a| - 1]);
    }
  }

  /** Flag writes are all flag writes and carry no synchronisation. */
  lemma {:induction false} FlagSetsQuiet(n: nat)
    ensures Kinds(FlagSets(n)) == Rep(KC, n)
    ensures SyncKinds(Kinds(FlagSets(n))) == []
  {
    if n > 0 {
      FlagSetsQuiet(n - 1);
      assert Rep(KC, n)[..n - 1] == Rep(KC, n - 1);
    }
  }

  /** A barrier neither writes the loop flag nor K. */
  lemma BarrierQuiet(c: SyncConfig, withFence: bool, t: BarrierType)
    ensures KC !in BarrierKinds(c, withFence, t)
    ensures SyncKinds(BarrierKinds(c, withFence, t)) == BarrierKinds(c, withFence, t)
  {
    var n := NbCount(c);
    assert KC !in Rep(KM, n) && KC !in Rep(KW, n);
    SyncKindsQuiet(BarrierKinds(c, withFence, t));
  }

  /** Appending one instruction to what a method has emitted so far. */
  lemma Extend(t0: Code, e: Code, x: Instr)
    ensures App(t0, Snoc(e, x)) == Snoc(App(t0, e), x)
    ensures Kinds(Snoc(e, x)) == Kinds(e) + KindOf(x)
  {
  }

  /** Appending a loop-control instruction adds no synchronisation. */
  lemma ControlStep(t0: Code, e: Code, x: Instr)
    requires x.FlagSet? || x.KAdd? || x.LoopJmp?
    ensures App(t0, Snoc(e, x)) == Snoc(App(t0, e), x)
    ensures SyncKinds(Kinds(Snoc(e, x))) == SyncKinds(Kinds(e))
  {
    SyncKindsApp(Kinds(e), KindOf(x));
    assert SyncKinds(KindOf(x)) == [] by {
      if KindOf(x) == [KC] {
        assert KindOf(x)[..0] == [];
      }
    }
  }

  /** Appending what a called method emitted to what the caller emitted before. */
  lemma Join(t0: Code, e1: Code, e2: Code)
    ensures App(App(t0, e1), e2) == App(t0, App(e1, e2))
    ensures Kinds(App(e1, e2)) == Kinds(e1) + Kinds(e2)
  {
    AppAssoc(t0, e1, e2);
    KindsApp(e1, e2);
  }

  /** The strategy facts the loop hooks read. */
  datatype LoopConfig = LoopConfig(
    prefetchABL3: bool,                        // strategy.prefetchABL3 > 0
    peelC: bool,                               // prefetchCPeelLoops > 0
    barrierSubloop: bool, barrierTask: bool,   // periodic barrier as a sub-loop / as a task
    splitBarrier: bool,                        // strategy.splitBarrier
    noBarrierStart: bool, noBarrierEnd: bool,  // kNoBarrierStart / kNoBarrierEnd are valid
    noFinalBarrier: bool)

  /** `LoopStart` signals a split barrier, in the sub-loop or as a task. */
  predicate StartSignals(lc: LoopConfig) {
    lc.splitBarrier && (lc.barrierSubloop || lc.barrierTask)
  }

  /** `LoopEnd` sets the flag after its back-edge jump. */
  predicate EndWritesFlag(lc: LoopConfig) {
    lc.barrierSubloop || lc.peelC || lc.prefetchABL3
  }

  /** The barriers of `LoopEnd`: the sub-loop's wait then signal when split, one full barrier otherwise. */
  function EndBarriers(c: SyncConfig, lc: LoopConfig): seq<Kind> {
    if !lc.barrierSubloop then []
    else if lc.splitBarrier then BarrierKinds(c, false, Wait) + BarrierKinds(c, false, Signal)
    else BarrierKinds(c, false, Normal)
  }

  /** The generator state the protocol reads and writes. */
  /**
   * What `auto statePreLoop = state;` saves of the state this model keeps:
   * the allocator's free count, the barrier header, its readiness and
   * `lastThresh`.
   */
  datatype PreLoop = PreLoop(free: nat, barrierHeader: Reg, barrierReady: bool, lastThresh: int)

  class SyncState {
    const cfg: SyncConfig
    var trace: Code        // the code emitted so far
    var free: nat                // free registers of the allocator
    var nextId: nat              // identity of the next register allocated
    var barrierHeader: Reg       // state.barrierHeader
    var barrierReady: bool       // state.barrierReady
    var lastThresh: int          // state.lastThresh
    var haveALastRSWA: bool      // haveA_lastRSWA
    var aLastRSWA: int           // A_lastRSWA, the iteration counter

    /**
     * The header register is an allocated one; while it is marked ready its
     * last write was `barrierheader`; every message sent so far had a live
     * header.
     */
    ghost predicate Valid()
      reads this
    {
      (barrierHeader.Grf? ==> barrierHeader.id < nextId) &&
      (barrierReady && barrierHeader.Grf? ==> HeaderLive(trace, barrierHeader.id)) &&
      MsgsLive(trace)
    }

    /** A register is free, or the header exists and a fence may borrow it. */
    predicate HasSpare()
      reads this
    {
      free > 0 || barrierHeader.Grf?
    }

    constructor (c: SyncConfig, regs: nat)
      ensures Valid() && cfg == c && trace == Nil && free == regs
      ensures barrierHeader == NoReg && !barrierReady && lastThresh == 0 && !haveALastRSWA
    {
      cfg := c;
      trace := Nil;
      free := regs;
      nextId := 0;
      barrierHeader := NoReg;
      barrierReady := false;
      lastThresh := 0;
      haveALastRSWA := false;
      aLastRSWA := 0;
    }

    /** Appends one instruction that is not a compare and does not clobber a ready header. */
    method Emit(x: Instr)
      requires Valid() && !x.Cmp?
      requires x.BarrierMsg? ==> HeaderLive(trace, x.header)
      requires x.SlmFence? && barrierReady ==> barrierHeader != Grf(x.temp)
      requires x.HeaderInit? ==> barrierHeader != Grf(x.header) || !barrierReady
      modifies this
      ensures Valid() && trace == Snoc(old(trace), x)
      ensures free == old(free) && nextId == old(nextId) && barrierHeader == old(barrierHeader)
      ensures barrierReady == old(barrierReady) && lastThresh == old(lastThresh)
      ensures haveALastRSWA == old(haveALastRSWA) && aLastRSWA == old(aLastRSWA)
    {
      trace := Snoc(trace, x);
    }

    /** `state.ra.try_alloc()`: a fresh register, or none when the allocator is empty. */
    method TryAlloc() returns (r: Reg)
      requires Valid()
      modifies this
      ensures Valid() && trace == old(trace)
      ensures old(free) > 0 ==> r == Grf(old(nextId)) && free == old(free) - 1 && nextId == old(nextId) + 1
      ensures old(free) == 0 ==> r == NoReg && free == 0 && nextId == old(nextId)
      ensures barrierHeader == old(barrierHeader) && barrierReady == old(barrierReady) && lastThresh == old(lastThresh)
      ensures haveALastRSWA == old(haveALastRSWA) && aLastRSWA == old(aLastRSWA)
    {
      if free == 0 {
        return NoReg;
      }
      r := Grf(nextId);
      free := free - 1;
      nextId := nextId + 1;
    }

    /**
     * `getFenceTemp`: a fresh register, else the barrier header, which then
     * has to be rebuilt; with neither the generator runs out of registers.
     */
    method GetFenceTemp() returns (res: Outcome, temp: Reg)
      requires Valid()
      modifies this
      ensures Valid() && trace == old(trace) && lastThresh == old(lastThresh)
      ensures res.Fail? <==> old(free) == 0 && old(barrierHeader) == NoReg
      ensures res.Fail? ==> free == 0
      ensures res.Done? ==> temp.Grf? && (temp == barrierHeader ==> !barrierReady)
      ensures res.Done? && old(free) > 0 ==> temp == Grf(old(nextId)) && free == old(free) - 1 && barrierReady == old(barrierReady)
      ensures res.Done? && old(free) == 0 ==> temp == old(barrierHeader) && !barrierReady && free == 0
      ensures barrierHeader == old(barrierHeader) && nextId >= old(nextId)
      ensures haveALastRSWA == old(haveALastRSWA) && aLastRSWA == old(aLastRSWA)
    {
      temp := TryAlloc();
      if temp.Grf? {
        return Done, temp;
      }
      if barrierHeader.Grf? {
        barrierReady := false;
        return Done, barrierHeader;
      }
      return Fail("out_of_registers_exception"), NoReg;
    }

    /** `releaseFenceTemp`: gives the temporary back unless it is the barrier header. */
    method ReleaseFenceTemp(temp: Reg)
      requires Valid()
      modifies this
      ensures Valid() && trace == old(trace) && nextId == old(nextId)
      ensures free == if temp.Grf? && temp != barrierHeader then old(free) + 1 else old(free)
      ensures barrierHeader == old(barrierHeader) && barrierReady == old(barrierReady) && lastThresh == old(lastThresh)
      ensures haveALastRSWA == old(haveALastRSWA) && aLastRSWA == old(aLastRSWA)
    {
      if temp.Grf? && temp != barrierHeader {
        free := free + 1;
      }
    }

    /** An `slmfence` into a temporary from `getFenceTemp`, followed by its release. */
    method FenceWith(temp: Reg) returns (ghost emitted: Code)
      requires Valid() && temp.Grf? && (temp == barrierHeader ==> !barrierReady)
      modifies this
      ensures Valid() && trace == App(old(trace), emitted) && Kinds(emitted) == [KF]
      ensures barrierHeader == old(barrierHeader) && lastThresh == old(lastThresh)
      ensures barrierReady == old(barrierReady) && nextId == old(nextId) && free == old(free)
      ensures haveALastRSWA == old(haveALastRSWA) && aLastRSWA == old(aLastRSWA)
    {
      Emit(SlmFence(temp.id));
      Extend(old(trace), Nil, SlmFence(temp.id));
      emitted := Snoc(Nil, SlmFence(temp.id));
    }

    /** `kLoopAllocBarrierHeader`: allocates the header once; a new header is not ready. */
    method AllocBarrierHeader() returns (res: Outcome)
      requires Valid()
      modifies this
      ensures Valid() && trace == old(trace) && lastThresh == old(lastThresh)
      ensures res.Fail? <==> old(barrierHeader) == NoReg && old(free) == 0
      ensures res.Fail? ==> free == 0
      ensures res.Done? ==> barrierHeader.Grf?
      ensures old(barrierHeader).Grf? ==> barrierHeader == old(barrierHeader) && barrierReady == old(barrierReady) && free == old(free)
      ensures old(barrierHeader) == NoReg && res.Done? ==> barrierHeader == Grf(old(nextId)) && !barrierReady && free == old(free) - 1
      ensures nextId >= old(nextId)
      ensures haveALastRSWA == old(haveALastRSWA) && aLastRSWA == old(aLastRSWA)
    {
      if barrierHeader == NoReg {
        var r := TryAlloc();
        if r == NoReg {
          return Fail("out_of_registers_exception");
        }
        barrierHeader := r;
        barrierReady := false;
      }
      return Done;
    }

    /**
     * `kLoopGetBarrierHeader`: the header, built with `barrierheader` only
     * when it is not ready, and ready afterwards.
     */
    method GetBarrierHeader() returns (res: Outcome, header: Reg, ghost emitted: Code)
      requires Valid()
      modifies this
      ensures Valid() && trace == App(old(trace), emitted) && Kinds(emitted) == [] && lastThresh == old(lastThresh)
      ensures res.Fail? <==> (old(barrierHeader) == NoReg && old(free) == 0) ||
                             (cfg.r0IsARF && !(old(barrierReady) && old(barrierHeader).Grf?))
      ensures res.Done? ==> header == barrierHeader && header.Grf? && barrierReady && HeaderLive(trace, header.id)
      ensures res.Done? ==> emitted == if old(barrierReady) && old(barrierHeader).Grf? then Nil else Snoc(Nil, HeaderInit(header.id))
      ensures old(barrierHeader).Grf? ==> barrierHeader == old(barrierHeader)
      ensures nextId >= old(nextId)
      ensures haveALastRSWA == old(haveALastRSWA) && aLastRSWA == old(aLastRSWA)
    {
      emitted := Nil;
      res := AllocBarrierHeader();
      if res.Fail? {
        return res, NoReg, emitted;
      }
      if !barrierReady {
        if cfg.r0IsARF {
          return Fail("r0_info is an ARF"), NoReg, emitted;
        }
        Emit(HeaderInit(barrierHeader.id));
        Extend(old(trace), Nil, HeaderInit(barrierHeader.id));
        emitted := Snoc(Nil, HeaderInit(barrierHeader.id));
        barrierReady := true;
      }
      return Done, barrierHeader, emitted;
    }

    /** `slmFenceIssue`: one `slmfence` into a fence temporary. */
    method SlmFenceIssue() returns (res: Outcome, ghost emitted: Code)
      requires Valid()
      modifies this
      ensures Valid() && trace == App(old(trace), emitted) && lastThresh == old(lastThresh)
      ensures res.Done? ==> Kinds(emitted) == [KF]
      ensures res.Fail? <==> old(free) == 0 && old(barrierHeader) == NoReg
      ensures res.Fail? ==> free == 0
      ensures old(free) > 0 ==> free == old(free)
      ensures barrierHeader == old(barrierHeader) && nextId >= old(nextId)
      ensures haveALastRSWA == old(haveALastRSWA) && aLastRSWA == old(aLastRSWA)
    {
      emitted := Nil;
      var temp;
      res, temp := GetFenceTemp();
      if res.Fail? {
        return;
      }
      emitted := FenceWith(temp);
      ReleaseFenceTemp(temp);
    }

    /** An `slmfence` followed by `fencewait`, with the temporary released afterwards. */
    method FencePair() returns (res: Outcome, ghost emitted: Code)
      requires Valid()
      modifies this
      ensures Valid() && trace == App(old(trace), emitted) && lastThresh == old(lastThresh)
      ensures res.Done? ==> Kinds(emitted) == [KF, KFW]
      ensures res.Fail? <==> old(free) == 0 && old(barrierHeader) == NoReg
      ensures res.Fail? ==> free == 0
      ensures old(free) > 0 ==> free == old(free)
      ensures barrierHeader == old(barrierHeader) && nextId >= old(nextId)
      ensures haveALastRSWA == old(haveALastRSWA) && aLastRSWA == old(aLastRSWA)
    {
      emitted := Nil;
      var temp;
      res, temp := GetFenceTemp();
      if res.Fail? {
        return;
      }
      emitted := FenceWith(temp);
      Emit(FenceWait);
      Extend(old(trace), emitted, FenceWait);
      emitted := Snoc(emitted, FenceWait);
      ReleaseFenceTemp(temp);
    }

    /**
     * The unnamed signal half of `kLoopBarrier`: header allocated, fence
     * temporary taken (possibly the header itself), optional fence, the
     * header rebuilt if the fence clobbered it, then `barriermsg`.
     */
    method UnnamedSignal(withFence: bool) returns (res: Outcome, ghost emitted: Code)
      requires Valid()
      modifies this
      ensures Valid() && trace == App(old(trace), emitted) && lastThresh == old(lastThresh)
      ensures res.Done? ==> Kinds(emitted) == (if withFence then [KF, KFW] else []) + [KM]
      ensures res.Fail? ==> cfg.r0IsARF || free == 0
      ensures !cfg.r0IsARF && old(HasSpare()) ==> res.Done? && HasSpare()
      ensures haveALastRSWA == old(haveALastRSWA) && aLastRSWA == old(aLastRSWA)
    {
      emitted := Nil;
      res := AllocBarrierHeader();
      if res.Fail? {
        return;
      }
      var temp;
      res, temp := GetFenceTemp();
      if res.Fail? {
        return;
      }
      ghost var k: seq<Kind> := [];
      if withFence {
        emitted := FenceWith(temp);
        Emit(FenceWait);
        Extend(old(trace), emitted, FenceWait);
        emitted := Snoc(emitted, FenceWait);
        k := [KF, KFW];
      }
      assert Kinds(emitted) == k;
      var header; ghost var e2;
      res, header, e2 := GetBarrierHeader();
      Join(old(trace), emitted, e2);
      emitted := App(emitted, e2);
      assert Kinds(emitted) == k;
      if res.Fail? {
        return;
      }
      Emit(BarrierMsg(header.id));
      Extend(old(trace), emitted, BarrierMsg(header.id));
      emitted := Snoc(emitted, BarrierMsg(header.id));
      ReleaseFenceTemp(temp);
    }

    /** One message per named barrier: `barrierHeaderM`, then `barrierHeaderN`. */
    method NamedMsgs() returns (ghost emitted: Code)
      requires Valid() && (cfg.nbM || cfg.nbN)
      modifies this
      ensures Valid() && trace == App(old(trace), emitted) && Kinds(emitted) == Rep(KM, NbCount(cfg))
      ensures free == old(free) && nextId == old(nextId) && barrierHeader == old(barrierHeader)
      ensures lastThresh == old(lastThresh)
      ensures haveALastRSWA == old(haveALastRSWA) && aLastRSWA == old(aLastRSWA)
    {
      emitted := Nil;
      if cfg.nbM {
        Emit(NamedMsg(0));
        Extend(old(trace), Nil, NamedMsg(0));
        emitted := Snoc(Nil, NamedMsg(0));
      }
      if cfg.nbN {
        Emit(NamedMsg(1));
        Extend(old(trace), emitted, NamedMsg(1));
        emitted := Snoc(emitted, NamedMsg(1));
      }
    }

    /** The wait half of a barrier: `barrierwait`, or `sync.bar` per named barrier. */
    method Waits() returns (ghost emitted: Code)
      requires Valid()
      modifies this
      ensures Valid() && trace == App(old(trace), emitted) && Kinds(emitted) == Rep(KW, NbCount(cfg))
      ensures free == old(free) && nextId == old(nextId) && barrierHeader == old(barrierHeader)
      ensures lastThresh == old(lastThresh)
      ensures haveALastRSWA == old(haveALastRSWA) && aLastRSWA == old(aLastRSWA)
    {
      emitted := Nil;
      if !cfg.nbM && !cfg.nbN {
        Emit(BarrierWait);
        Extend(old(trace), Nil, BarrierWait);
        emitted := Snoc(Nil, BarrierWait);
        return;
      }
      if cfg.nbM {
        Emit(NamedWait(0));
        Extend(old(trace), Nil, NamedWait(0));
        emitted := Snoc(Nil, NamedWait(0));
      }
      if cfg.nbN {
        Emit(NamedWait(1));
        Extend(old(trace), emitted, NamedWait(1));
        emitted := Snoc(emitted, NamedWait(1));
      }
    }

    /** The signalling part of `kLoopBarrier` for a barrier that is not a pure wait. */
    method SignalPart(withFence: bool) returns (res: Outcome, ghost emitted: Code)
      requires Valid()
      modifies this
      ensures Valid() && trace == App(old(trace), emitted) && lastThresh == old(lastThresh)
      ensures res.Done? ==> Kinds(emitted) == (if withFence then [KF, KFW] else []) + Rep(KM, NbCount(cfg))
      ensures res.Fail? ==> cfg.r0IsARF || free == 0
      ensures !cfg.r0IsARF && old(HasSpare()) ==> res.Done? && HasSpare()
      ensures haveALastRSWA == old(haveALastRSWA) && aLastRSWA == old(aLastRSWA)
    {
      if !cfg.nbM && !cfg.nbN {
        res, emitted := UnnamedSignal(withFence);
        assert Rep(KM, 1) == [KM];
        return;
      }
      emitted := Nil;
      res := Done;
      if withFence {
        res, emitted := FencePair();
        if res.Fail? {
          return;
        }
      }
      ghost var e2 := NamedMsgs();
      Join(old(trace), emitted, e2);
      emitted := App(emitted, e2);
    }

    /**
     * `kLoopBarrier(withSLMFence, type)`: emits exactly the fence, message
     * and wait events of `BarrierKinds`, every unnamed message with a live
     * header, and stops only when registers run out or r0 is not a GRF.
     */
    method KLoopBarrier(withFence: bool, t: BarrierType) returns (res: Outcome, ghost emitted: Code)
      requires Valid()
      modifies this
      ensures Valid() && trace == App(old(trace), emitted) && lastThresh == old(lastThresh)
      ensures res.Done? ==> Kinds(emitted) == BarrierKinds(cfg, withFence, t)
      ensures t == Wait && !withFence ==> res.Done?
      ensures res.Fail? ==> cfg.r0IsARF || free == 0
      ensures !cfg.r0IsARF && old(HasSpare()) ==> res.Done? && HasSpare()
      ensures haveALastRSWA == old(haveALastRSWA) && aLastRSWA == old(aLastRSWA)
    {
      var n := NbCount(cfg);
      if t == Wait {
        emitted := Nil;
        res := Done;
        if withFence {
          res, emitted := FencePair();
          if res.Fail? {
            return;
          }
        }
        ghost var e3 := Waits();
        Join(old(trace), emitted, e3);
        emitted := App(emitted, e3);
        assert Kinds(emitted) == (if withFence then [KF, KFW] else []) + Rep(KW, n);
      } else {
        res, emitted := SignalPart(withFence);
        if res.Fail? {
          return;
        }
        ghost var k := Kinds(emitted);
        if t == Normal {
          ghost var e3 := Waits();
          Join(old(trace), emitted, e3);
          emitted := App(emitted, e3);
          assert Kinds(emitted) == k + Rep(KW, n);
        }
      }
    }

    /** `wrdepRanges` on the A and B registers, as far as the workaround asks for it. */
    method WrDeps() returns (ghost emitted: Code)
      requires Valid()
      modifies this
      ensures Valid() && trace == App(old(trace), emitted) && Kinds(emitted) == []
      ensures free == old(free) && nextId == old(nextId) && barrierHeader == old(barrierHeader)
      ensures lastThresh == old(lastThresh)
      ensures haveALastRSWA == old(haveALastRSWA) && aLastRSWA == old(aLastRSWA)
    {
      emitted := Nil;
      if cfg.slmA && cfg.aCopies > 1 {
        Emit(WrDep);
        Extend(old(trace), emitted, WrDep);
        emitted := Snoc(emitted, WrDep);
      }
      if cfg.slmB && cfg.bCopies > 1 {
        Emit(WrDep);
        Extend(old(trace), emitted, WrDep);
        emitted := Snoc(emitted, WrDep);
      }
    }

    /** `slm1x2xFencedBarrier`: a normal barrier before a 1x/2x buffered store. */
    method Slm1x2xFencedBarrier() returns (res: Outcome, ghost emitted: Code)
      requires Valid()
      modifies this
      ensures Valid() && trace == App(old(trace), emitted) && lastThresh == old(lastThresh)
      ensures res.Done? ==> Kinds(emitted) == Fenced1x2xKinds(cfg)
      ensures res.Fail? ==> cfg.r0IsARF || free == 0
      ensures !cfg.r0IsARF && old(HasSpare()) ==> res.Done? && HasSpare()
      ensures haveALastRSWA == old(haveALastRSWA) && aLastRSWA == old(aLastRSWA)
    {
      if cfg.hwBeforeXeHPG && !cfg.strictFence {
        res, emitted := KLoopBarrier(false, Normal);
      } else if (cfg.aCopies > 2 || cfg.bCopies > 2) && !cfg.slmFenceWARWA {
        res, emitted := KLoopBarrier(true, Normal);
      } else {
        emitted := WrDeps();
        ghost var e2;
        res, e2 := KLoopBarrier(false, Normal);
        Join(old(trace), emitted, e2);
        emitted := App(emitted, e2);
      }
    }

    /** The stores of `doSLMStore`: A, then B. */
    method Stores() returns (ghost emitted: Code)
      requires Valid()
      modifies this
      ensures Valid() && trace == App(old(trace), emitted) && Kinds(emitted) == Rep(KS, StoreCount(cfg))
      ensures free == old(free) && nextId == old(nextId) && barrierHeader == old(barrierHeader)
      ensures lastThresh == old(lastThresh)
      ensures haveALastRSWA == old(haveALastRSWA) && aLastRSWA == old(aLastRSWA)
    {
      emitted := Nil;
      if cfg.slmA {
        Emit(Store);
        Extend(old(trace), emitted, Store);
        emitted := Snoc(emitted, Store);
      }
      ghost var k := Kinds(emitted);
      if cfg.slmB {
        Emit(Store);
        Extend(old(trace), emitted, Store);
        emitted := Snoc(emitted, Store);
        assert Kinds(emitted) == k + [KS];
      }
    }

    /** The sums `doSLMStore` accumulates from the staged copies; they carry no synchronisation. */
    method Sums() returns (ghost emitted: Code)
      requires Valid()
      modifies this
      ensures Valid() && trace == App(old(trace), emitted) && Kinds(emitted) == []
      ensures free == old(free) && nextId == old(nextId) && barrierHeader == old(barrierHeader)
      ensures lastThresh == old(lastThresh)
      ensures haveALastRSWA == old(haveALastRSWA) && aLastRSWA == old(aLastRSWA)
    {
      emitted := Nil;
      if cfg.slmASums {
        Emit(Sum);
        Extend(old(trace), emitted, Sum);
        emitted := Snoc(emitted, Sum);
      }
      if cfg.slmBSums {
        Emit(Sum);
        Extend(old(trace), emitted, Sum);
        emitted := Snoc(emitted, Sum);
      }
    }

    /** The stores of `doSLMStore` followed by its sums. */
    method StoresAndSums() returns (ghost emitted: Code)
      requires Valid()
      modifies this
      ensures Valid() && trace == App(old(trace), emitted) && Kinds(emitted) == Rep(KS, StoreCount(cfg))
      ensures free == old(free) && nextId == old(nextId) && barrierHeader == old(barrierHeader)
      ensures lastThresh == old(lastThresh)
      ensures haveALastRSWA == old(haveALastRSWA) && aLastRSWA == old(aLastRSWA)
    {
      emitted := Stores();
      ghost var e2 := Sums();
      Join(old(trace), emitted, e2);
      emitted := App(emitted, e2);
      assert Kinds(emitted) == Rep(KS, StoreCount(cfg)) + [];
    }

    /** The synchronisation `doSLMStore` emits before its stores. */
    method PreStore() returns (res: Outcome, ghost emitted: Code)
      requires Valid() && 1 <= cfg.slmBuffers <= 4
      modifies this
      ensures Valid() && trace == App(old(trace), emitted) && lastThresh == old(lastThresh)
      ensures res.Done? ==> Kinds(emitted) == StorePre(cfg)
      ensures res.Fail? ==> cfg.r0IsARF || free == 0
      ensures !cfg.r0IsARF && old(HasSpare()) ==> res.Done? && HasSpare()
      ensures haveALastRSWA == old(haveALastRSWA) && aLastRSWA == old(aLastRSWA)
    {
      emitted := Nil;
      res := Done;
      if cfg.slmBuffers == 1 {
        res, emitted := Slm1x2xFencedBarrier();
      }
    }

    /** The synchronisation `doSLMStore` emits after its stores. */
    method StoreSync() returns (res: Outcome, ghost emitted: Code)
      requires Valid() && 1 <= cfg.slmBuffers <= 4
      modifies this
      ensures Valid() && trace == App(old(trace), emitted) && lastThresh == old(lastThresh)
      ensures res.Done? ==> Kinds(emitted) == StorePost(cfg)
      ensures res.Fail? ==> cfg.r0IsARF || free == 0
      ensures !cfg.r0IsARF && old(HasSpare()) ==> res.Done? && HasSpare()
      ensures haveALastRSWA == old(haveALastRSWA) && aLastRSWA == old(aLastRSWA)
    {
      emitted := Nil;
      res := Done;
      if cfg.slmBuffers == 1 {
        res, emitted := KLoopBarrier(true, Normal);
      } else if cfg.slmBuffers == 2 {
        res, emitted := FencePair();
      } else if cfg.slmBuffers == 3 {
        if cfg.slmFenceWARWA {
          emitted := WrDeps();
        }
        ghost var e2;
        res, e2 := KLoopBarrier(true, Signal);
        Join(old(trace), emitted, e2);
        emitted := App(emitted, e2);
      }
    }

    /**
     * `doSLMStore`: nothing without SLM copies; otherwise the pre-store
     * barrier of a single buffer, the stores, and the depth's post-store
     * synchronisation. A depth outside 1 to 4 is not supported.
     */
    method DoSLMStore() returns (res: Outcome, ghost emitted: Code)
      requires Valid()
      modifies this
      ensures Valid() && trace == App(old(trace), emitted) && lastThresh == old(lastThresh)
      ensures !cfg.slmA && !cfg.slmB ==> res.Done? && emitted == Nil
      ensures (cfg.slmA || cfg.slmB) && !(1 <= cfg.slmBuffers <= 4) ==> res.Fail? && emitted == Nil
      ensures res.Done? && (cfg.slmA || cfg.slmB) ==>
                Kinds(emitted) == StorePre(cfg) + Rep(KS, StoreCount(cfg)) + StorePost(cfg)
      ensures 1 <= cfg.slmBuffers <= 4 && !cfg.r0IsARF && old(HasSpare()) ==> res.Done? && HasSpare()
      ensures haveALastRSWA == old(haveALastRSWA) && aLastRSWA == old(aLastRSWA)
    {
      emitted := Nil;
      if !cfg.slmA && !cfg.slmB {
        return Done, emitted;
      }
      if !(1 <= cfg.slmBuffers <= 4) {
        return Fail("unsupported slmBuffers"), emitted;
      }
      res, emitted := PreStore();
      if res.Fail? {
        return;
      }
      ghost var e2 := StoresAndSums();
      Join(old(trace), emitted, e2);
      emitted := App(emitted, e2);
      ghost var k := Kinds(emitted);
      ghost var e3;
      res, e3 := StoreSync();
      Join(old(trace), emitted, e3);
      emitted := App(emitted, e3);
      assert res.Done? ==> Kinds(emitted) == k + StorePost(cfg);
    }

    /** `doSLMAfterStore`: the depth's synchronisation once the stores are in flight. */
    method DoSLMAfterStore() returns (res: Outcome, ghost emitted: Code)
      requires Valid()
      modifies this
      ensures Valid() && trace == App(old(trace), emitted) && lastThresh == old(lastThresh)
      ensures res.Done? ==> Kinds(emitted) == AfterStoreKinds(cfg)
      ensures res.Fail? ==> cfg.r0IsARF || free == 0
      ensures !cfg.r0IsARF && old(HasSpare()) ==> res.Done? && HasSpare()
      ensures haveALastRSWA == old(haveALastRSWA) && aLastRSWA == old(aLastRSWA)
    {
      emitted := Nil;
      res := Done;
      if cfg.slmBuffers == 2 {
        res, emitted := Slm1x2xFencedBarrier();
      } else if cfg.slmBuffers == 3 {
        res, emitted := KLoopBarrier(false, Wait);
      } else if cfg.slmBuffers == 4 {
        res, emitted := FencePair();
        if res.Fail? {
          return;
        }
        if cfg.slmFenceWARWA {
          ghost var e1 := WrDeps();
          Join(old(trace), emitted, e1);
          emitted := App(emitted, e1);
        }
        ghost var e2;
        res, e2 := KLoopBarrier(false, Signal);
        Join(old(trace), emitted, e2);
        emitted := App(emitted, e2);
      }
    }

    /** `doSLMAfterStore2`: the wait of a four-deep ring; other depths beyond 4 are not supported. */
    method DoSLMAfterStore2() returns (res: Outcome, ghost emitted: Code)
      requires Valid()
      modifies this
      ensures Valid() && trace == App(old(trace), emitted) && lastThresh == old(lastThresh)
      ensures !(1 <= cfg.slmBuffers <= 4) ==> res.Fail? && emitted == Nil
      ensures res.Done? ==> Kinds(emitted) == AfterStore2Kinds(cfg)
      ensures 1 <= cfg.slmBuffers <= 4 ==> res.Done?
      ensures haveALastRSWA == old(haveALastRSWA) && aLastRSWA == old(aLastRSWA)
    {
      emitted := Nil;
      res := Done;
      if cfg.slmBuffers == 4 {
        res, emitted := KLoopBarrier(false, Wait);
      } else if !(1 <= cfg.slmBuffers <= 3) {
        res := Fail("unsupported slmBuffers");
      }
    }

    /**
     * The `JumpIfLT` callback: compares the loop counter only when the
     * threshold differs from the last one compared, then jumps. The jump
     * tests "K < thresh" for the current K exactly when the compare was
     * emitted, or when nothing has written the flag or K since the compare
     * with the repeated threshold. The loop hooks below write both without
     * resetting `lastThresh`, so skipping the compare is sound only when the
     * caller never repeats a threshold across them.
     */
    method JumpIfLT(thresh: int, target: int)
      requires Valid()
      modifies this
      ensures Valid() && lastThresh == thresh
      ensures trace == Snoc(if thresh != old(lastThresh) then Snoc(old(trace), Cmp(thresh)) else old(trace), Jmp(target))
      ensures FlagOf(trace.init) == Some(thresh) <==> thresh != old(lastThresh) || old(FlagOf(trace)) == Some(thresh)
      ensures FlagOf(trace) == FlagOf(trace.init)
      ensures free == old(free) && nextId == old(nextId) && barrierHeader == old(barrierHeader)
      ensures barrierReady == old(barrierReady)
      ensures haveALastRSWA == old(haveALastRSWA) && aLastRSWA == old(aLastRSWA)
    {
      if thresh != lastThresh {
        trace := Snoc(trace, Cmp(thresh));
      }
      Emit(Jmp(target));
      lastThresh := thresh;
    }

    /** Appends one loop-control instruction to the code emitted since `t0`. */
    method Control(x: Instr, ghost t0: Code, ghost e: Code) returns (ghost e2: Code)
      requires Valid() && (x.FlagSet? || x.KAdd? || x.LoopJmp?) && trace == App(t0, e)
      modifies this
      ensures Valid() && trace == App(t0, e2)
      ensures FlagOf(trace) == if x.LoopJmp? then old(FlagOf(trace)) else None
      ensures SyncKinds(Kinds(e2)) == SyncKinds(Kinds(e))
      ensures free == old(free) && nextId == old(nextId) && barrierHeader == old(barrierHeader)
      ensures barrierReady == old(barrierReady) && lastThresh == old(lastThresh)
      ensures haveALastRSWA == old(haveALastRSWA) && aLastRSWA == old(aLastRSWA)
    {
      Emit(x);
      ControlStep(t0, e, x);
      e2 := Snoc(e, x);
    }

    /** A barrier called from a loop hook, appended to the code emitted since `t0`. */
    method HookBarrier(t: BarrierType, ghost t0: Code, ghost e: Code) returns (res: Outcome, ghost e2: Code)
      requires Valid() && trace == App(t0, e)
      modifies this
      ensures Valid() && trace == App(t0, e2) && lastThresh == old(lastThresh)
      ensures res.Done? ==> SyncKinds(Kinds(e2)) == SyncKinds(Kinds(e)) + BarrierKinds(cfg, false, t)
      ensures res.Done? ==> FlagOf(trace) == old(FlagOf(trace))
      ensures res.Fail? ==> cfg.r0IsARF || free == 0
      ensures !cfg.r0IsARF && old(HasSpare()) ==> res.Done? && HasSpare()
      ensures haveALastRSWA == old(haveALastRSWA) && aLastRSWA == old(aLastRSWA)
    {
      ghost var b;
      res, b := KLoopBarrier(false, t);
      Join(t0, e, b);
      e2 := App(e, b);
      if res.Done? {
        BarrierQuiet(cfg, false, t);
        FlagOfApp(old(trace), b);
        SyncKindsApp(Kinds(e), Kinds(b));
      }
    }

    /** The `OffsetCounter` callback: K moves by a constant, the flag is left alone. */
    method OffsetCounter()
      requires Valid()
      modifies this
      ensures Valid() && trace == Snoc(old(trace), KAdd) && FlagOf(trace) == None
      ensures free == old(free) && nextId == old(nextId) && barrierHeader == old(barrierHeader)
      ensures barrierReady == old(barrierReady) && lastThresh == old(lastThresh)
      ensures haveALastRSWA == old(haveALastRSWA) && aLastRSWA == old(aLastRSWA)
    {
      Emit(KAdd);
    }

    /**
     * The main-loop check `reqLoopCheck`: K drops by the unroll and the
     * condition goes to f0[0]; `lastThresh` is kept, so afterwards the loop
     * flag reflects no compare.
     */
    method LoopCheck()
      requires Valid()
      modifies this
      ensures Valid() && trace == Snoc(old(trace), KAdd) && FlagOf(trace) == None
      ensures free == old(free) && nextId == old(nextId) && barrierHeader == old(barrierHeader)
      ensures barrierReady == old(barrierReady) && lastThresh == old(lastThresh)
      ensures haveALastRSWA == old(haveALastRSWA) && aLastRSWA == old(aLastRSWA)
    {
      Emit(KAdd);
    }

    /**
     * The loop flag as the incremental SLM remainder load uses it: after
     * `kLoopModifiedFlagAP`, one compare of the SLM counter into the flag
     * before the loads, then one before each later counter step, so one per
     * counter immediate of `KLoopRem.RemLoadInc` for the same `kxSlm`.
     * `kLoopModifiedFlagAP` is defined outside this file; `forgets` says
     * whether it resets the compared threshold.
     */
    method RemainderFlagWrites(kxSlm: nat, forgets: bool) returns (ghost emitted: Code)
      requires Valid()
      modifies this
      ensures Valid() && trace == App(old(trace), emitted) && emitted == FlagSets(Max(kxSlm, 1))
      ensures FlagOf(trace) == None && SyncKinds(Kinds(emitted)) == []
      ensures lastThresh == if forgets then 0 else old(lastThresh)
      ensures free == old(free) && nextId == old(nextId) && barrierHeader == old(barrierHeader)
      ensures barrierReady == old(barrierReady)
      ensures haveALastRSWA == old(haveALastRSWA) && aLastRSWA == old(aLastRSWA)
    {
      if forgets {
        lastThresh := 0;
      }
      Emit(FlagSet);
      emitted := FlagSets(1);
      var hh := 0;
      while hh < kxSlm
        invariant 0 <= hh <= kxSlm || hh == 0
        invariant Valid() && trace == App(old(trace), emitted) && FlagOf(trace) == None
        invariant emitted == FlagSets(1 + Min(hh, Max(kxSlm - 1, 0)))
        invariant lastThresh == if forgets then 0 else old(lastThresh)
        invariant free == old(free) && nextId == old(nextId) && barrierHeader == old(barrierHeader)
        invariant barrierReady == old(barrierReady)
        invariant haveALastRSWA == old(haveALastRSWA) && aLastRSWA == old(aLastRSWA)
      {
        if kxSlm - hh - 1 > 0 {
          Emit(FlagSet);
          emitted := Snoc(emitted, FlagSet);
        }
        hh := hh + 1;
      }
      FlagSetsQuiet(Max(kxSlm, 1));
    }

    /** The sub-loop part of the loop-start hook: the K adjustments around the optional split-barrier signal. */
    method SubloopStart(lc: LoopConfig, ghost t0: Code, ghost e: Code) returns (res: Outcome, ghost e2: Code)
      requires Valid() && lc.barrierSubloop && trace == App(t0, e) && FlagOf(trace) == None
      modifies this
      ensures Valid() && trace == App(t0, e2) && lastThresh == old(lastThresh)
      ensures res.Done? ==> FlagOf(trace) == None
      ensures res.Done? ==>
                SyncKinds(Kinds(e2)) == SyncKinds(Kinds(e)) + if lc.splitBarrier then BarrierKinds(cfg, false, Signal) else []
      ensures res.Fail? ==> lc.splitBarrier && (cfg.r0IsARF || free == 0)
      ensures !cfg.r0IsARF && old(HasSpare()) ==> res.Done? && HasSpare()
      ensures haveALastRSWA == old(haveALastRSWA) && aLastRSWA == old(aLastRSWA)
    {
      res := Done;
      e2 := e;
      if lc.noBarrierStart {
        e2 := Control(KAdd, t0, e2);
      }
      if lc.noBarrierEnd {
        e2 := Control(KAdd, t0, e2);
      }
      e2 := Control(KAdd, t0, e2);
      if lc.splitBarrier {
        res, e2 := HookBarrier(Signal, t0, e2);
        if res.Fail? {
          return;
        }
      }
      if lc.noBarrierStart {
        e2 := Control(KAdd, t0, e2);
      }
    }

    /**
     * The `LoopStart` callback: the flag is set for the skip over the loop
     * (K ≤ 0, or K ≤ the L3 peel), K is trimmed for the C-prefetch peel and
     * the barrier sub-loop, a split barrier is signalled once, and the
     * skip jump is taken on the flag. `lastThresh` is kept.
     */
    method LoopStart(lc: LoopConfig) returns (res: Outcome, ghost emitted: Code)
      requires Valid()
      modifies this
      ensures Valid() && trace == App(old(trace), emitted) && lastThresh == old(lastThresh)
      ensures res.Done? ==> FlagOf(trace) == None
      ensures res.Done? ==> SyncKinds(Kinds(emitted)) == if StartSignals(lc) then BarrierKinds(cfg, false, Signal) else []
      ensures res.Fail? ==> StartSignals(lc) && (cfg.r0IsARF || free == 0)
      ensures !cfg.r0IsARF && old(HasSpare()) ==> res.Done? && HasSpare()
      ensures haveALastRSWA == old(haveALastRSWA) && aLastRSWA == old(aLastRSWA)
    {
      emitted := StartFlag(lc);
      res, emitted := StartBarrier(lc, old(trace), emitted);
      if res.Done? {
        emitted := Control(LoopJmp, old(trace), emitted);
      }
    }

    /** The flag part of the loop-start hook: the skip test, then the C-prefetch peel's K trimming. */
    method StartFlag(lc: LoopConfig) returns (ghost emitted: Code)
      requires Valid()
      modifies this
      ensures Valid() && trace == App(old(trace), emitted) && FlagOf(trace) == None
      ensures SyncKinds(Kinds(emitted)) == []
      ensures free == old(free) && nextId == old(nextId) && barrierHeader == old(barrierHeader)
      ensures barrierReady == old(barrierReady) && lastThresh == old(lastThresh)
      ensures haveALastRSWA == old(haveALastRSWA) && aLastRSWA == old(aLastRSWA)
    {
      emitted := Control(FlagSet, old(trace), Nil);
      if lc.peelC {
        emitted := Control(KAdd, old(trace), emitted);
      }
    }

    /** The barrier part of the loop-start hook: the sub-loop's K trimming and signal, or the task's signal. */
    method StartBarrier(lc: LoopConfig, ghost t0: Code, ghost e: Code) returns (res: Outcome, ghost e2: Code)
      requires Valid() && trace == App(t0, e) && FlagOf(trace) == None
      modifies this
      ensures Valid() && trace == App(t0, e2) && lastThresh == old(lastThresh)
      ensures res.Done? ==> FlagOf(trace) == None
      ensures res.Done? ==>
                SyncKinds(Kinds(e2)) == SyncKinds(Kinds(e)) + if StartSignals(lc) then BarrierKinds(cfg, false, Signal) else []
      ensures res.Fail? ==> StartSignals(lc) && (cfg.r0IsARF || free == 0)
      ensures !cfg.r0IsARF && old(HasSpare()) ==> res.Done? && HasSpare()
      ensures haveALastRSWA == old(haveALastRSWA) && aLastRSWA == old(aLastRSWA)
    {
      res, e2 := Done, e;
      if lc.barrierSubloop {
        res, e2 := SubloopStart(lc, t0, e);
      } else if lc.barrierTask && lc.splitBarrier {
        res, e2 := HookBarrier(Signal, t0, e);
      }
    }

    /**
     * The `LoopEnd` callback: the back-edge jump; then the barrier
     * sub-loop's re-entry with its barrier (a wait and a new signal when
     * split, a full barrier otherwise), the C-prefetch peel's re-entry and
     * the L3 peel's re-entry, each setting the flag for its own jump.
     * `lastThresh` is kept.
     */
    method LoopEnd(lc: LoopConfig) returns (res: Outcome, ghost emitted: Code)
      requires Valid()
      modifies this
      ensures Valid() && trace == App(old(trace), emitted) && lastThresh == old(lastThresh)
      ensures res.Done? ==> FlagOf(trace) == if EndWritesFlag(lc) then None else old(FlagOf(trace))
      ensures res.Done? ==> SyncKinds(Kinds(emitted)) == EndBarriers(cfg, lc)
      ensures res.Fail? ==> lc.barrierSubloop && (cfg.r0IsARF || free == 0)
      ensures !cfg.r0IsARF && old(HasSpare()) ==> res.Done? && HasSpare()
      ensures haveALastRSWA == old(haveALastRSWA) && aLastRSWA == old(aLastRSWA)
    {
      emitted := Control(LoopJmp, old(trace), Nil);
      assert SyncKinds(Kinds(emitted)) == [] by {
        assert Kinds(Nil) == [];
      }
      res := Done;
      if lc.barrierSubloop {
        res, emitted := SubloopReentry(lc, old(trace), emitted);
        if res.Fail? {
          return;
        }
      }
      emitted := PeelReentries(lc, old(trace), emitted);
    }

    /** The barrier sub-loop's part of `LoopEnd`: K regains the outer count, then the barrier and the re-entry jumps. */
    method SubloopReentry(lc: LoopConfig, ghost t0: Code, ghost e: Code) returns (res: Outcome, ghost e2: Code)
      requires Valid() && trace == App(t0, e) && lc.barrierSubloop
      modifies this
      ensures Valid() && trace == App(t0, e2) && lastThresh == old(lastThresh)
      ensures res.Done? ==> FlagOf(trace) == None
      ensures res.Done? ==> SyncKinds(Kinds(e2)) == SyncKinds(Kinds(e)) + EndBarriers(cfg, lc)
      ensures res.Fail? ==> cfg.r0IsARF || free == 0
      ensures !cfg.r0IsARF && old(HasSpare()) ==> res.Done? && HasSpare()
      ensures haveALastRSWA == old(haveALastRSWA) && aLastRSWA == old(aLastRSWA)
    {
      e2 := Control(KAdd, t0, e);
      e2 := Control(FlagSet, t0, e2);
      if lc.noFinalBarrier {
        e2 := Control(LoopJmp, t0, e2);
      }
      res, e2 := SubloopBarriers(lc.splitBarrier, t0, e2);
      if res.Fail? {
        return;
      }
      e2 := Control(LoopJmp, t0, e2);
      if lc.noBarrierEnd {
        e2 := Control(FlagSet, t0, e2);
        e2 := Control(LoopJmp, t0, e2);
      }
    }

    /** The sub-loop's barrier: a wait and a new signal when split, one full barrier otherwise. */
    method SubloopBarriers(split: bool, ghost t0: Code, ghost e: Code) returns (res: Outcome, ghost e2: Code)
      requires Valid() && trace == App(t0, e)
      modifies this
      ensures Valid() && trace == App(t0, e2) && lastThresh == old(lastThresh)
      ensures res.Done? ==> FlagOf(trace) == old(FlagOf(trace))
      ensures res.Done? ==>
                SyncKinds(Kinds(e2)) == SyncKinds(Kinds(e)) +
                  (if split then BarrierKinds(cfg, false, Wait) + BarrierKinds(cfg, false, Signal)
                   else BarrierKinds(cfg, false, Normal))
      ensures res.Fail? ==> cfg.r0IsARF || free == 0
      ensures !cfg.r0IsARF && old(HasSpare()) ==> res.Done? && HasSpare()
      ensures haveALastRSWA == old(haveALastRSWA) && aLastRSWA == old(aLastRSWA)
    {
      if split {
        ghost var e1;
        res, e1 := HookBarrier(Wait, t0, e);
        if res.Fail? {
          return res, e1;
        }
        res, e2 := HookBarrier(Signal, t0, e1);
        assert SyncKinds(Kinds(e)) + BarrierKinds(cfg, false, Wait) + BarrierKinds(cfg, false, Signal)
            == SyncKinds(Kinds(e)) + (BarrierKinds(cfg, false, Wait) + BarrierKinds(cfg, false, Signal));
      } else {
        res, e2 := HookBarrier(Normal, t0, e);
      }
    }

    /** The C-prefetch and L3-prefetch peels' part of `LoopEnd`: each sets the flag and jumps. */
    method PeelReentries(lc: LoopConfig, ghost t0: Code, ghost e: Code) returns (ghost e2: Code)
      requires Valid() && trace == App(t0, e)
      modifies this
      ensures Valid() && trace == App(t0, e2) && lastThresh == old(lastThresh)
      ensures FlagOf(trace) == if lc.peelC || lc.prefetchABL3 then None else old(FlagOf(trace))
      ensures SyncKinds(Kinds(e2)) == SyncKinds(Kinds(e))
      ensures free == old(free) && nextId == old(nextId) && barrierHeader == old(barrierHeader)
      ensures barrierReady == old(barrierReady)
      ensures haveALastRSWA == old(haveALastRSWA) && aLastRSWA == old(aLastRSWA)
    {
      e2 := e;
      if lc.peelC {
        e2 := Control(FlagSet, t0, e2);
        e2 := Control(LoopJmp, t0, e2);
      }
      if lc.prefetchABL3 {
        e2 := Control(FlagSet, t0, e2);
        e2 := Control(LoopJmp, t0, e2);
        e2 := Control(FlagSet, t0, e2);
        e2 := Control(LoopJmp, t0, e2);
      }
    }

    /** `NotifyPhase(PhaseMainPathEnd)`: the outstanding split-barrier wait of a periodic barrier. */
    method NotifyMainPathEnd(periodicSplit: bool) returns (res: Outcome, ghost emitted: Code)
      requires Valid()
      modifies this
      ensures Valid() && trace == App(old(trace), emitted) && lastThresh == old(lastThresh)
      ensures res.Done? && FlagOf(trace) == old(FlagOf(trace))
      ensures Kinds(emitted) == if periodicSplit then BarrierKinds(cfg, false, Wait) else []
      ensures haveALastRSWA == old(haveALastRSWA) && aLastRSWA == old(aLastRSWA)
    {
      res, emitted := Done, Nil;
      if periodicSplit {
        res, emitted := KLoopBarrier(false, Wait);
        BarrierQuiet(cfg, false, Wait);
        FlagOfApp(old(trace), emitted);
      }
    }

    /** `NotifyPhase(PhaseCooldown)`: K gives back the barrier-free tail, and the RSWA pairing is forgotten. */
    method NotifyCooldown(noBarrierEnd: bool)
      requires Valid()
      modifies this
      ensures Valid() && trace == if noBarrierEnd then Snoc(old(trace), KAdd) else old(trace)
      ensures FlagOf(trace) == if noBarrierEnd then None else old(FlagOf(trace))
      ensures !haveALastRSWA && lastThresh == old(lastThresh)
      ensures free == old(free) && nextId == old(nextId) && barrierHeader == old(barrierHeader)
      ensures barrierReady == old(barrierReady) && aLastRSWA == old(aLastRSWA)
    {
      if noBarrierEnd {
        Emit(KAdd);
      }
      haveALastRSWA := false;
    }

    /** The part of `resetForNewLoop` this model keeps: forget the compare, the RSWA pairing and the header. */
    method ResetForNewLoop()
      requires Valid()
      modifies this
      ensures Valid() && trace == old(trace) && lastThresh == 0 && !haveALastRSWA
      ensures barrierHeader == NoReg && barrierReady == old(barrierReady) && nextId == old(nextId)
      ensures free == if old(barrierHeader).Grf? then old(free) + 1 else old(free)
      ensures aLastRSWA == old(aLastRSWA)
    {
      lastThresh := 0;
      haveALastRSWA := false;
      if barrierHeader.Grf? {
        free := free + 1;
      }
      barrierHeader := NoReg;
    }

    /** The snapshot `statePreLoop` of this state. */
    function PreLoopOf(): PreLoop
      reads this
    {
      PreLoop(free, barrierHeader, barrierReady, lastThresh)
    }

    /**
     * A snapshot this state can go back to: its header was allocated, and a
     * header it marks ready is still the last write of its register in the
     * code emitted so far.
     */
    ghost predicate Restorable(pre: PreLoop)
      reads this
    {
      (pre.barrierHeader.Grf? ==> pre.barrierHeader.id < nextId) &&
      (pre.barrierReady && pre.barrierHeader.Grf? ==> HeaderLive(trace, pre.barrierHeader.id))
    }

    /** `auto statePreLoop = state;`: a valid state can always go back to its own snapshot. */
    method SavePreLoop() returns (pre: PreLoop)
      requires Valid()
      ensures pre == PreLoopOf() && Restorable(pre)
    {
      pre := PreLoop(free, barrierHeader, barrierReady, lastThresh);
    }

    /** `state = statePreLoop`: the saved allocator, header and threshold come back; the code stays. */
    method RestorePreLoop(pre: PreLoop)
      requires Valid() && Restorable(pre)
      modifies this
      ensures Valid() && PreLoopOf() == pre && trace == old(trace) && nextId == old(nextId)
      ensures haveALastRSWA == old(haveALastRSWA) && aLastRSWA == old(aLastRSWA)
    {
      free, barrierHeader, barrierReady, lastThresh := pre.free, pre.barrierHeader, pre.barrierReady, pre.lastThresh;
    }

    /**
     * `NotifyPhase(PhaseShortLoop)`: the loop is reset, the state goes back
     * to the pre-loop snapshot, and with `splitBarrierAlways` and a periodic
     * split barrier the short loop opens with a signal.
     */
    method NotifyShortLoop(pre: PreLoop, splitAlways: bool, periodicSplit: bool) returns (res: Outcome, ghost emitted: Code)
      requires Valid() && Restorable(pre)
      modifies this
      ensures var signal := splitAlways && periodicSplit;
              res.Done? ==> SyncKinds(Kinds(emitted)) == if signal then BarrierKinds(cfg, false, Signal) else []
      ensures res.Fail? ==> splitAlways && periodicSplit && (cfg.r0IsARF || pre.free == 0)
      ensures !(splitAlways && periodicSplit) ==> emitted == Nil && PreLoopOf() == pre && nextId == old(nextId)
      ensures Valid() && trace == App(old(trace), emitted)
      ensures lastThresh == pre.lastThresh && !haveALastRSWA && aLastRSWA == old(aLastRSWA)
      ensures res.Done? ==> FlagOf(trace) == old(FlagOf(trace))
      ensures !cfg.r0IsARF && (pre.free > 0 || pre.barrierHeader.Grf?) ==> res.Done?
    {
      ResetForNewLoop();
      RestorePreLoop(pre);
      res, emitted := Done, Nil;
      if splitAlways && periodicSplit {
        res, emitted := HookBarrier(Signal, old(trace), Nil);
      }
    }

    /**
     * `NotifyPhase(PhaseShortLoopEnd)`: with `splitBarrierAlways` and a
     * periodic split barrier the short loop closes with the outstanding wait.
     */
    method NotifyShortLoopEnd(splitAlways: bool, periodicSplit: bool) returns (res: Outcome, ghost emitted: Code)
      requires Valid()
      modifies this
      ensures Valid() && trace == App(old(trace), emitted) && lastThresh == old(lastThresh)
      ensures res.Done? && FlagOf(trace) == old(FlagOf(trace))
      ensures Kinds(emitted) == if splitAlways && periodicSplit then BarrierKinds(cfg, false, Wait) else []
      ensures haveALastRSWA == old(haveALastRSWA) && aLastRSWA == old(aLastRSWA)
    {
      res, emitted := NotifyMainPathEnd(splitAlways && periodicSplit);
    }

    /** `doRSWA_A`: the read-suppression workaround for A, remembered with its iteration. */
    method DoRSWAA(h: int)
      requires Valid()
      modifies this
      ensures Valid() && trace == Snoc(old(trace), ReadSuppression)
      ensures haveALastRSWA && aLastRSWA == h
      ensures free == old(free) && nextId == old(nextId) && barrierHeader == old(barrierHeader)
      ensures barrierReady == old(barrierReady) && lastThresh == old(lastThresh)
    {
      aLastRSWA := h;
      haveALastRSWA := true;
      Emit(ReadSuppression);
    }

    /** `doRSWA_B`: the workaround for B, skipped when A already did it at the same iteration. */
    method DoRSWAB(h: int)
      requires Valid()
      modifies this
      ensures Valid() && !haveALastRSWA && aLastRSWA == old(aLastRSWA)
      ensures trace == if old(haveALastRSWA) && old(aLastRSWA) == h then old(trace) else Snoc(old(trace), ReadSuppression)
      ensures free == old(free) && nextId == old(nextId) && barrierHeader == old(barrierHeader)
      ensures barrierReady == old(barrierReady) && lastThresh == old(lastThresh)
    {
      if !(haveALastRSWA && aLastRSWA == h) {
        Emit(ReadSuppression);
      }
      haveALastRSWA := false;
    }
  }
}
