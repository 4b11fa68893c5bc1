/**
 * The scheduling arithmetic of the GEMM k-loop: how deep the SLM staging
 * ring looks ahead, which copy and buffer an iteration uses, and the
 * address increments that walk the SLM ring and the k-interleaved layout.
 * The loop sequencer itself is not part of this model; its requests are
 * plain data.
 */
module KLoopSched {
  import opened Common

  /**
   * A loop-sequencer iteration: its position `counter` in the unrolled loop
   * and the iterations `remaining` after it. `h % n`, `h / n` and `h + n`
   * act on the counter.
   */
  datatype Iteration = Iteration(counter: nat, remaining: int)

  /** The `slmBufferLA` switch: how many SLM blocks the store runs ahead; more than 4 buffers stop the generator. */
  function SlmBufferLA(slmBuffers: int): (r: Result<nat>)
    ensures r.Ok? <==> 0 <= slmBuffers <= 4
    ensures r.Ok? ==> r.value == slmBuffers / 2
    ensures r.Ok? && slmBuffers > 0 ==> r.value < slmBuffers
  {
    if slmBuffers == 0 || slmBuffers == 1 then Ok(0)
    else if slmBuffers == 2 || slmBuffers == 3 then Ok(1)
    else if slmBuffers == 4 then Ok(2)
    else Err("slmBuffers > 4")
  }

  /** A loop-sequencer request, as plain data. */
  datatype Request = Request(every: int, variants: int, lookahead: int, duration: int)

  /** The strategy fields the SLM requests are built from. */
  datatype SlmConfig = SlmConfig(
    unrollKSLM: int, slmCopies: int, slmBuffers: int,
    slmA: bool, slmB: bool,
    aCopies: int, bCopies: int,
    kaLoadMain: int, kbLoadMain: int,
    kaLoadRem: int, kbLoadRem: int)

  /**
   * The SLM load, store and after-store requests, and the load and store
   * requests of the remainder path; an after-store step exists only at the
   * depths that schedule it.
   */
  datatype SlmRequests = SlmRequests(
    load: Request, store: Request, afterStore: Option<Request>, afterStore2: Option<Request>,
    loadRem: Request, storeRem: Request,
    reload: int,     // lookaheadSLMReload, the lookahead of the register reload that reads the SLM data
    reloadRem: int)  // lookaheadSLMReloadRem, the same on the remainder path

  function LookaheadALoad(c: SlmConfig): int {
    c.kaLoadMain * (c.aCopies - 1)
  }

  function LookaheadBLoad(c: SlmConfig): int {
    c.kbLoadMain * (c.bCopies - 1)
  }

  function LookaheadALoadRem(c: SlmConfig): int {
    c.kaLoadRem * (c.aCopies - 1)
  }

  function LookaheadBLoadRem(c: SlmConfig): int {
    c.kbLoadRem * (c.bCopies - 1)
  }

  /**
   * With both A and B staged through SLM, their loads must share one
   * lookahead in the main loop and one in the remainder, and with different
   * load sizes A's lookahead must not change between the two.
   */
  predicate SharedLookaheads(c: SlmConfig) {
    c.slmA && c.slmB ==>
      LookaheadALoad(c) == LookaheadBLoad(c) &&
      LookaheadALoadRem(c) == LookaheadBLoadRem(c) &&
      (c.kaLoadMain == c.kbLoadMain || LookaheadALoad(c) == LookaheadALoadRem(c))
  }

  /** The main-loop SLM requests of `kLoop`; a depth above 4 or mismatched A/B lookaheads stop the generator. */
  function SlmSchedule(c: SlmConfig): (r: Result<SlmRequests>)
    ensures r.Ok? <==> 0 <= c.slmBuffers <= 4 && SharedLookaheads(c)
    ensures r.Ok? ==> (r.value.afterStore.Some? <==> c.slmBuffers >= 2) && (r.value.afterStore2.Some? <==> c.slmBuffers >= 4)
    ensures r.Ok? ==> r.value.store.every == c.unrollKSLM && r.value.store.variants == c.slmCopies
    ensures r.Ok? ==> r.value.loadRem == r.value.load.(lookahead := r.value.load.lookahead - r.value.reload + r.value.reloadRem)
    ensures r.Ok? ==> r.value.storeRem == r.value.store.(lookahead := r.value.store.lookahead - r.value.reload + r.value.reloadRem, duration := 0)
  {
    var la := SlmBufferLA(c.slmBuffers);
    if la.Err? then Err(la.reason)
    else if c.slmA && c.slmB && LookaheadALoad(c) != LookaheadBLoad(c) then Err("lookaheadALoad != lookaheadBLoad")
    else if c.slmA && c.slmB && LookaheadALoadRem(c) != LookaheadBLoadRem(c) then Err("lookaheadALoadRem != lookaheadBLoadRem")
    else if c.slmA && c.slmB && c.kaLoadMain != c.kbLoadMain && LookaheadALoad(c) != LookaheadALoadRem(c) then
      Err("ka_loadMain != kb_loadMain with lookaheadALoad != lookaheadALoadRem")
    else
      var u := c.unrollKSLM;
      var lookaheadSLMLoad := u * (c.slmCopies - 1) + u - 1;
      var lookaheadSLMStore := u * la.value + 1;
      var reload := if c.slmA then LookaheadALoad(c) else LookaheadBLoad(c);
      var reloadRem := if c.slmA then LookaheadALoadRem(c) else LookaheadBLoadRem(c);
      var duration := Max(if c.slmA then c.kaLoadMain else 0, if c.slmB then c.kbLoadMain else 0);
      Ok(SlmRequests(
        Request(u, c.slmCopies, lookaheadSLMLoad + lookaheadSLMStore + reload, 0),
        Request(u, c.slmCopies, lookaheadSLMStore + reload, duration),
        if c.slmBuffers >= 2 then Some(Request(u, c.slmCopies, lookaheadSLMStore + reload - u, duration)) else None,
        if c.slmBuffers >= 4 then Some(Request(u, c.slmCopies, lookaheadSLMStore + reload - 2 * u, duration)) else None,
        Request(u, c.slmCopies, lookaheadSLMLoad + lookaheadSLMStore + reloadRem, 0),
        Request(u, c.slmCopies, lookaheadSLMStore + reloadRem, 0),
        reload, reloadRem))
  }

  /**
   * Each after-store step runs one (or two) SLM blocks after the store, and
   * the depths that schedule it are exactly those where it still runs ahead
   * of the register reload.
   */
  lemma AfterStoresPrecedeReload(c: SlmConfig)
    requires c.unrollKSLM > 0 && c.slmCopies >= 1 && SlmSchedule(c).Ok?
    ensures var s := SlmSchedule(c).value;
            (s.afterStore.Some? ==> s.afterStore.value.lookahead == s.store.lookahead - c.unrollKSLM > s.reload) &&
            (s.afterStore2.Some? ==> s.afterStore2.value.lookahead == s.store.lookahead - 2 * c.unrollKSLM > s.reload) &&
            s.store.lookahead > s.reload &&
            s.load.lookahead >= s.store.lookahead
  {
    var la := SlmBufferLA(c.slmBuffers).value;
    MulLe(0, la, c.unrollKSLM);
    MulLe(0, c.slmCopies - 1, c.unrollKSLM);
    if c.slmBuffers >= 2 {
      MulLe(1, la, c.unrollKSLM);
    }
    if c.slmBuffers >= 4 {
      assert la == 2;
    }
  }

  /** `X_remActive(h)`: iteration `h` lies in a load block the remaining iterations do not fill. */
  predicate RemActive(h: Iteration, loadMain: int)
    requires loadMain > 0
  {
    h.remaining < loadMain - h.counter % loadMain
  }

  /** The remainder path is active exactly when the loop ends before the next multiple of the load size. */
  lemma RemActiveMeaning(h: Iteration, loadMain: int)
    requires loadMain > 0
    ensures RemActive(h, loadMain) <==> h.counter + h.remaining < (h.counter / loadMain + 1) * loadMain
  {
    assert h.counter == (h.counter / loadMain) * loadMain + h.counter % loadMain;
  }

  /** `ka_load(h)` / `kb_load(h)`. */
  function Load(h: Iteration, loadMain: int, loadRem: int): int
    requires loadMain > 0
  {
    if RemActive(h, loadMain) then loadRem else loadMain
  }

  /** `A_copy(h)` / `B_copy(h)`: the register copy iteration `h` loads into. */
  function Copy(h: Iteration, loadMain: int, loadRem: int, copies: int): (r: int)
    requires loadMain > 0 && loadRem > 0 && copies > 0
    ensures 0 <= r < copies
    ensures !RemActive(h, loadMain) ==> r == (h.counter / loadMain) % copies
  {
    (h.counter / Load(h, loadMain, loadRem)) % copies
  }

  /** `slmBuffer(h)`: the SLM buffer of iteration `h`. */
  function SlmBuffer(h: Iteration, unrollKSLM: int, slmBuffers: int): (r: int)
    requires unrollKSLM > 0 && slmBuffers > 0
    ensures 0 <= r < slmBuffers
  {
    (h.counter / unrollKSLM) % slmBuffers
  }

  /** `kIncSLMStore` at buffer `b`: the next buffer, or back to buffer 0 from the last one. */
  function StoreIncAt(unrollKSLM: int, slmBuffers: int, b: int): int {
    (if b == slmBuffers - 1 then -(slmBuffers - 1) else 1) * unrollKSLM
  }

  /** The store address increment `doSLMStoreInc` applies at iteration `h`. */
  function StoreInc(h: Iteration, unrollKSLM: int, slmBuffers: int): int
    requires unrollKSLM > 0 && slmBuffers > 0
  {
    StoreIncAt(unrollKSLM, slmBuffers, SlmBuffer(h, unrollKSLM, slmBuffers))
  }

  /** The store address offset of buffer `b` in the SLM ring. */
  function RingOffset(unrollKSLM: int, b: int): int {
    b * unrollKSLM
  }

  /** The increment moves the store address from buffer `b` to buffer `(b + 1) % slmBuffers`. */
  lemma StoreIncAdvances(unrollKSLM: int, slmBuffers: int, b: int)
    requires slmBuffers > 0 && 0 <= b < slmBuffers
    ensures RingOffset(unrollKSLM, b) + StoreIncAt(unrollKSLM, slmBuffers, b) == RingOffset(unrollKSLM, (b + 1) % slmBuffers)
  {
    if b == slmBuffers - 1 {
      assert (b + 1) % slmBuffers == 0;
    } else {
      assert (b + 1) % slmBuffers == b + 1;
    }
  }

  /** The increments of `n` consecutive buffers starting at `b`. */
  function StoreIncSum(unrollKSLM: int, slmBuffers: int, b: int, n: nat): int
    requires slmBuffers > 0
  {
    if n == 0 then 0 else StoreIncSum(unrollKSLM, slmBuffers, b, n - 1) + StoreIncAt(unrollKSLM, slmBuffers, (b + n - 1) % slmBuffers)
  }

  /** The increments telescope: after `n` stores the address is at buffer `(b + n) % slmBuffers`. */
  lemma {:induction false} StoreIncTelescopes(unrollKSLM: int, slmBuffers: int, b: int, n: nat)
    requires slmBuffers > 0 && 0 <= b < slmBuffers
    ensures RingOffset(unrollKSLM, b) + StoreIncSum(unrollKSLM, slmBuffers, b, n) == RingOffset(unrollKSLM, (b + n) % slmBuffers)
  {
    if n > 0 {
      var c := (b + n - 1) % slmBuffers;
      var inc := StoreIncAt(unrollKSLM, slmBuffers, c);
      assert StoreIncSum(unrollKSLM, slmBuffers, b, n) == StoreIncSum(unrollKSLM, slmBuffers, b, n - 1) + inc;
      StoreIncTelescopes(unrollKSLM, slmBuffers, b, n - 1);
      assert RingOffset(unrollKSLM, c) + inc == RingOffset(unrollKSLM, (c + 1) % slmBuffers) by {
        StoreIncAdvances(unrollKSLM, slmBuffers, c);
      }
      assert (c + 1) % slmBuffers == (b + n) % slmBuffers by {
        ModSucc(b + n - 1, slmBuffers);
      }
    }
  }

  lemma ModSucc(x: int, m: int)
    requires m > 0
    ensures ((x % m) + 1) % m == (x + 1) % m
  {
    var q, r := x / m, x % m;
    DivModSplit(x, m);
    if r + 1 == m {
      MulSucc(q, m);
      DivModOf(q + 1, 0, m);
      DivModOf(0, 0, m);
    } else {
      DivModOf(q, r + 1, m);
      DivModOf(0, r + 1, m);
    }
  }

  /** Any `slmBuffers` consecutive store increments cancel out. */
  lemma StoreIncCycle(unrollKSLM: int, slmBuffers: int, b: int)
    requires slmBuffers > 0 && 0 <= b < slmBuffers
    ensures StoreIncSum(unrollKSLM, slmBuffers, b, slmBuffers) == 0
  {
    StoreIncTelescopes(unrollKSLM, slmBuffers, b, slmBuffers);
    DivModOf(1, b, slmBuffers);
  }

  /** `kInc(h, k_inc, group)`: a k step, widened to skip the other threads' chunks under k-interleaving. */
  function KInc(h: nat, kInc: int, group: int, chunk: int, wgK: int): (r: int)
    requires chunk >= 0 && (chunk > 0 ==> group != 0)
    ensures chunk == 0 ==> r == kInc
  {
    if chunk == 0 then kInc
    else
      var k := kInc * group;
      var k2 := if k > chunk then chunk * wgK
                else if h % chunk + k >= chunk then k + chunk * (wgK - 1)
                else k;
      TDiv(k2, group)
  }

  /**
   * The global k of a thread's local k `h` when the `wgK` threads of the
   * work-group take turns in chunks of `chunk`.
   */
  function GlobalK(h: nat, chunk: int, wgK: int): int
    requires chunk > 0
  {
    (h / chunk) * chunk * wgK + h % chunk
  }

  /** A step of at most one chunk advances the global k by exactly `kInc`. */
  lemma KIncGlobal(h: nat, inc: int, chunk: int, wgK: int)
    requires chunk > 0 && 0 < inc
    ensures inc <= chunk ==> GlobalK(h + inc, chunk, wgK) == GlobalK(h, chunk, wgK) + KInc(h, inc, 1, chunk, wgK)
    ensures inc > chunk ==> GlobalK(h + chunk, chunk, wgK) == GlobalK(h, chunk, wgK) + KInc(h, inc, 1, chunk, wgK)
  {
    var q, r := h / chunk, h % chunk;
    DivModSplit(h, chunk);
    var base := q * chunk * wgK;
    assert GlobalK(h, chunk, wgK) == base + r;
    assert (q + 1) * chunk * wgK == base + chunk * wgK by {
      MulSucc(q, chunk);
      assert (q + 1) * chunk * wgK == (q * chunk + chunk) * wgK;
    }
    if inc > chunk {
      MulSucc(q, chunk);
      DivModOf(q + 1, r, chunk);
    } else if r + inc < chunk {
      DivModOf(q, r + inc, chunk);
    } else {
      MulSucc(q, chunk);
      DivModOf(q + 1, r + inc - chunk, chunk);
    }
  }

  /** `ka_inc(h)`: with SLM the A address wraps around the SLM ring of `unrollKSLM * slmBuffers`. */
  function KaInc(h: Iteration, slmA: bool, loadMain: int, loadRem: int, unrollKSLM: int, slmBuffers: int,
                 chunk: int, wgK: int): (r: int)
    requires loadMain > 0 && unrollKSLM > 0 && slmBuffers > 0 && chunk >= 0
    ensures slmA ==> var wrap := unrollKSLM * slmBuffers;
                     var inc := Load(h, loadMain, loadRem);
                     (r == inc || r == inc - wrap) && (r == inc - wrap <==> (h.counter + inc) % wrap < inc)
    ensures !slmA && chunk == 0 ==> r == Load(h, loadMain, loadRem)
  {
    var inc := Load(h, loadMain, loadRem);
    if slmA then
      var wrap := unrollKSLM * slmBuffers;
      MulAtLeast(unrollKSLM, slmBuffers);
      if (h.counter + inc) % wrap < inc then inc - wrap else inc
    else KInc(h.counter, inc, 1, chunk, wgK)
  }

  /** With SLM, a step of at most the ring size keeps the address inside the ring: it lands on `(h + inc) % wrap`. */
  lemma KaIncWraps(h: Iteration, loadMain: int, loadRem: int, unrollKSLM: int, slmBuffers: int)
    requires loadMain > 0 && unrollKSLM > 0 && slmBuffers > 0
    requires 0 <= Load(h, loadMain, loadRem) <= unrollKSLM * slmBuffers
    ensures var wrap := unrollKSLM * slmBuffers;
            h.counter % wrap + KaInc(h, true, loadMain, loadRem, unrollKSLM, slmBuffers, 0, 1) == (h.counter + Load(h, loadMain, loadRem)) % wrap
  {
    var wrap := unrollKSLM * slmBuffers;
    MulAtLeast(unrollKSLM, slmBuffers);
    var inc := Load(h, loadMain, loadRem);
    var q, r := h.counter / wrap, h.counter % wrap;
    assert h.counter == q * wrap + r;
    if r + inc < wrap {
      DivModOf(q, r + inc, wrap);
    } else {
      DivModOf(q + 1, r + inc - wrap, wrap);
      assert h.counter + inc == (q + 1) * wrap + (r + inc - wrap);
    }
  }

  /** The unroll check after the sequencer's analysis: its unroll must equal the strategy's `unrollK`. */
  function CheckUnroll(lsUnroll: int, unrollK: int): (r: Outcome)
    ensures r.Done? <==> lsUnroll == unrollK
  {
    if lsUnroll != unrollK then Fail("ls.getUnroll() != unrollK") else Done
  }
}
