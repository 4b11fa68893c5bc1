/**
 * 64-bit integer emulation in the nGEN code generator: the per-hardware
 * emulation strategy, the splitting of immediates into 32-bit and 16-bit
 * halves, strength reduction of a multiply by an immediate, and the
 * instruction sequences that stand in for 64-bit shifts and adds on
 * hardware whose integer pipe is 32 bits wide.
 *
 * A register is a 32-bit word, an integer in [0, 2^32); every 32-bit
 * instruction is a function on words with its wrap-around written out. A
 * 64-bit register is a pair of words (low, high). The emitted sequences
 * are run on a register file, and their result is compared with the
 * 64-bit operation they replace.
 */
module Emulation {
  import opened Common

  const W32: int := 0x1_0000_0000
  const W64: int := 0x1_0000_0000_0000_0000

  type Word = x: int | 0 <= x < 0x1_0000_0000
  type Word64 = x: int | 0 <= x < 0x1_0000_0000_0000_0000

  // ---------------------------------------------------------------------
  // Arithmetic on words

  lemma {:induction false} Pow2Add(a: nat, b: nat)
    ensures Pow2(a + b) == Pow2(a) * Pow2(b)
  {
    if a > 0 {
      Pow2Add(a - 1, b);
      assert Pow2(a + b) == 2 * Pow2(a - 1 + b);
    }
  }

  lemma Pow2Consts()
    ensures Pow2(15) == 0x8000 && Pow2(16) == 0x10000
    ensures Pow2(31) == 0x8000_0000 && Pow2(32) == W32
    ensures Pow2(63) == 0x8000_0000_0000_0000 && Pow2(64) == W64
  {
    assert Pow2(7) == 128 && Pow2(8) == 256;
    Pow2Add(8, 7);
    Pow2Add(8, 8);
    Pow2Add(15, 16);
    Pow2Add(16, 16);
    Pow2Add(31, 32);
    Pow2Add(32, 32);
  }

  /** For `0 <= k <= 32`, 2^k splits 2^32 into 2^k * 2^(32-k). */
  lemma Pow2Split32(k: nat)
    requires k <= 32
    ensures Pow2(k) * Pow2(32 - k) == W32 && Pow2(32 - k) * Pow2(k) == W32
  {
    Pow2Add(k, 32 - k);
    Pow2Consts();
  }

  lemma DivLe(x: nat, p: nat)
    requires p >= 1
    ensures 0 <= x / p <= x
  {
    DivModSplit(x, p);
    if x / p > x {
      MulLe(1, p, x / p);
    }
  }

  /** `x < a * b` with `x == q * b + r` forces `q < a`. */
  lemma QuotBound(x: int, q: int, r: int, a: int, b: int)
    requires b > 0 && 0 <= r && x == q * b + r && 0 <= x < a * b
    ensures q < a
  {
    if q >= a {
      MulLe(a, q, b);
    }
  }

  /** Bitwise OR of two naturals, bit by bit from the least significant. */
  function BitOr(a: nat, b: nat): nat
    decreases a + b
  {
    if a == 0 then b
    else if b == 0 then a
    else 2 * BitOr(a / 2, b / 2) + (if a % 2 == 1 || b % 2 == 1 then 1 else 0)
  }

  lemma {:induction false} OrBound(a: nat, b: nat, k: nat)
    requires a < Pow2(k) && b < Pow2(k)
    ensures BitOr(a, b) < Pow2(k)
    decreases k
  {
    if a != 0 && b != 0 {
      assert k > 0;
      OrBound(a / 2, b / 2, k - 1);
    }
  }

  /** OR of a multiple of 2^k and a number below 2^k is their sum. */
  lemma {:induction false} OrDisjoint(a: nat, b: nat, k: nat)
    requires a % Pow2(k) == 0 && b < Pow2(k)
    ensures BitOr(a, b) == a + b
    decreases k
  {
    if a != 0 && b != 0 {
      assert k > 0;
      var m := a / Pow2(k);
      assert a == m * Pow2(k) by {
        DivModSplit(a, Pow2(k));
      }
      assert a == (m * Pow2(k - 1)) * 2;
      DivModOf(m * Pow2(k - 1), 0, 2);
      assert a / 2 == m * Pow2(k - 1) && a % 2 == 0;
      DivModOf(m, 0, Pow2(k - 1));
      DivModSplit(b, 2);
      QuotBound(b, b / 2, b % 2, Pow2(k - 1), 2);
      OrDisjoint(a / 2, b / 2, k - 1);
      assert BitOr(a, b) == 2 * BitOr(a / 2, b / 2) + b % 2;
    }
  }

  lemma {:induction false} OrComm(a: nat, b: nat)
    ensures BitOr(a, b) == BitOr(b, a)
    decreases a + b
  {
    if a != 0 && b != 0 {
      OrComm(a / 2, b / 2);
    }
  }

  function Or32(a: Word, b: Word): Word {
    Pow2Consts();
    OrBound(a, b, 32);
    BitOr(a, b)
  }

  /** `shl` of a word: the bits shifted past bit 31 are lost. */
  function ShlW(x: Word, k: nat): Word {
    (x * Pow2(k)) % W32
  }

  /** `shr` of a word. */
  function ShrW(x: Word, k: nat): Word {
    DivLe(x, Pow2(k));
    x / Pow2(k)
  }

  /** A word read as a signed 32-bit integer. */
  function S32(x: Word): int {
    if x < 0x8000_0000 then x else x - W32
  }

  /** `asr` of a word: floor division of the signed reading, wrapped. */
  function AsrW(x: Word, k: nat): Word {
    (S32(x) / Pow2(k)) % W32
  }

  /** A 64-bit value read as a signed 64-bit integer. */
  function S64(v: Word64): int {
    if v < 0x8000_0000_0000_0000 then v else v - W64
  }

  /** The 64-bit shifts the emulation stands in for. */
  function ShlQ(v: Word64, k: nat): Word64 {
    (v * Pow2(k)) % W64
  }

  function ShrQ(v: Word64, k: nat): Word64 {
    DivLe(v, Pow2(k));
    v / Pow2(k)
  }

  function AsrQ(v: Word64, k: nat): Word64 {
    (S64(v) / Pow2(k)) % W64
  }

  /** A 32-bit pattern sign-extended to 64 bits. */
  function Sext(x: Word): Word64 {
    if x < 0x8000_0000 then x else x + (W64 - W32)
  }

  // ---------------------------------------------------------------------
  // The register file and the instructions

  /**
   * Locations of 32-bit words: the two halves of 64-bit register `q`, a
   * 32-bit register `d`, the temporaries of the emulation state, the
   * accumulator that `addc` leaves its carry in, and the null register.
   */
  datatype Loc = Lo(q: nat) | Hi(q: nat) | Dw(d: nat) | Temp(t: nat) | Acc0 | Null

  type Regs = map<Loc, Word>

  function Get(m: Regs, l: Loc): Word {
    if l in m then m[l] else 0
  }

  /** A 32-bit source operand: a location or an immediate. */
  datatype Src = R(loc: Loc) | K(imm: Word)

  function Rd(m: Regs, s: Src): Word {
    match s
    case R(l) => Get(m, l)
    case K(k) => k
  }

  /** An operand as the emulation routines see it: 64-bit (`q`/`uq`) or 32-bit (`d`/`ud`). */
  datatype Opnd = QW(q: nat, signed: bool) | DW(d: nat, signed: bool)

  /** The low 32-bit half of an operand (`downgradeToDW`, or the operand itself). */
  function LoOf(o: Opnd): Loc {
    match o
    case QW(q, _) => Lo(q)
    case DW(d, _) => Dw(d)
  }

  /** The 64-bit value of a register pair. */
  function Pair(m: Regs, q: nat): Word64 {
    Get(m, Hi(q)) * W32 + Get(m, Lo(q))
  }

  /** The value an operand contributes to a 64-bit operation. */
  function Val(m: Regs, o: Opnd): Word64 {
    match o
    case QW(q, _) => Pair(m, q)
    case DW(d, s) => if s then Sext(Get(m, Dw(d))) else Get(m, Dw(d))
  }

  /** Writing a 64-bit result: both halves of a 64-bit destination, the low half otherwise. */
  function Put(m: Regs, d: Opnd, v: Word64): Regs {
    match d
    case QW(q, _) => m[Lo(q) := v % W32][Hi(q) := v / W32]
    case DW(x, _) => m[Dw(x) := v % W32]
  }

  /**
   * The instructions the routines emit. The first seven work on 32-bit
   * words; the `..64` forms are single native 64-bit instructions, emitted
   * where the strategy does not ask for emulation. Shift counts are taken
   * modulo the operand width, as the hardware does.
   */
  datatype Op =
    | Mov(d: Loc, a: Src)
    | Add(d: Loc, a: Src, b: Src)
    | Addc(d: Loc, a: Src, b: Src)
    | Shl(d: Loc, a: Src, n: nat)
    | Shr(d: Loc, a: Src, n: nat)
    | Asr(d: Loc, a: Src, n: nat)
    | Or(d: Loc, a: Src, b: Src)
    | Mov64(dq: Opnd, s: Opnd)
    | Add64(dq: Opnd, s0: Opnd, s1: Opnd)
    | Shl64(dq: Opnd, s: Opnd, n: nat)
    | Shr64(dq: Opnd, s: Opnd, n: nat)
    | Asr64(dq: Opnd, s: Opnd, n: nat)

  predicate Is32(op: Op) {
    op.Mov? || op.Add? || op.Addc? || op.Shl? || op.Shr? || op.Asr? || op.Or?
  }

  /** A sequence that is a true emulation: only 32-bit instructions. */
  predicate All32(code: seq<Op>) {
    forall i :: 0 <= i < |code| ==> Is32(code[i])
  }

  function Step(m: Regs, op: Op): Regs {
    match op
    case Mov(d, a) => m[d := Rd(m, a)]
    case Add(d, a, b) => m[d := (Rd(m, a) + Rd(m, b)) % W32]
    case Addc(d, a, b) => m[d := (Rd(m, a) + Rd(m, b)) % W32][Acc0 := (Rd(m, a) + Rd(m, b)) / W32]
    case Shl(d, a, n) => m[d := ShlW(Rd(m, a), n % 32)]
    case Shr(d, a, n) => m[d := ShrW(Rd(m, a), n % 32)]
    case Asr(d, a, n) => m[d := AsrW(Rd(m, a), n % 32)]
    case Or(d, a, b) => m[d := Or32(Rd(m, a), Rd(m, b))]
    case Mov64(d, s) => Put(m, d, Val(m, s))
    case Add64(d, s0, s1) => Put(m, d, (Val(m, s0) + Val(m, s1)) % W64)
    case Shl64(d, s, n) => Put(m, d, ShlQ(Val(m, s), n % 64))
    case Shr64(d, s, n) => Put(m, d, ShrQ(Val(m, s), n % 64))
    case Asr64(d, s, n) => Put(m, d, AsrQ(Val(m, s), n % 64))
  }

  /** Runs a sequence of instructions in order. */
  function Exec(code: seq<Op>, m: Regs): Regs
    decreases |code|
  {
    if code == [] then m else Exec(code[1..], Step(m, code[0]))
  }

  lemma {:induction false} ExecApp(a: seq<Op>, b: seq<Op>, m: Regs)
    ensures Exec(a + b, m) == Exec(b, Exec(a, m))
    decreases |a|
  {
    if a == [] {
      assert a + b == b;
    } else {
      assert (a + b)[1..] == a[1..] + b;
      ExecApp(a[1..], b, Step(m, a[0]));
    }
  }

  lemma Exec1(x: Op, m: Regs)
    ensures Exec([x], m) == Step(m, x)
  {
    assert [x][1..] == [];
  }

  lemma Exec2(x: Op, y: Op, m: Regs)
    ensures Exec([x, y], m) == Step(Step(m, x), y)
  {
    assert [x, y][1..] == [y];
    Exec1(y, Step(m, x));
  }

  lemma Exec3(x: Op, y: Op, z: Op, m: Regs)
    ensures Exec([x, y, z], m) == Step(Step(Step(m, x), y), z)
  {
    assert [x, y, z][1..] == [y, z];
    Exec2(y, z, Step(m, x));
  }

  lemma Exec4(x: Op, y: Op, z: Op, u: Op, m: Regs)
    ensures Exec([x, y, z, u], m) == Step(Step(Step(Step(m, x), y), z), u)
  {
    assert [x, y, z, u][1..] == [y, z, u];
    Exec3(y, z, u, Step(m, x));
  }

  /** A 32-bit shift by an in-range count writes that shift of its source. */
  lemma StepShift(m: Regs, op: Op)
    requires (op.Shl? || op.Shr? || op.Asr?) && 0 <= op.n < 32
    ensures op.Shl? ==> Step(m, op) == m[op.d := ShlW(Rd(m, op.a), op.n)]
    ensures op.Shr? ==> Step(m, op) == m[op.d := ShrW(Rd(m, op.a), op.n)]
    ensures op.Asr? ==> Step(m, op) == m[op.d := AsrW(Rd(m, op.a), op.n)]
  {
    assert op.n % 32 == op.n;
  }

  /** Reading back a 64-bit result from the destination it was written to. */
  lemma PutPair(m: Regs, q: nat, s: bool, v: Word64)
    ensures Pair(Put(m, QW(q, s), v), q) == v
  {
  }

  lemma PutLow(m: Regs, x: nat, s: bool, v: Word64)
    ensures Get(Put(m, DW(x, s), v), Dw(x)) == v % W32
  {
  }

  // ---------------------------------------------------------------------
  // Shifts

  /** Splitting `x < c * p` into its digits in base `c`, then scaling by `p`. */
  lemma SplitMul(x: int, c: int, p: int)
    requires c > 0 && p > 0 && 0 <= x < c * p
    ensures x * p == (x / c) * (c * p) + (x % c) * p
    ensures 0 <= (x % c) * p <= c * p - p
    ensures 0 <= x / c < p
    ensures ((x % c) * p) % p == 0
  {
    var q, r := x / c, x % c;
    assert x == q * c + r && 0 <= r < c by { DivModSplit(x, c); }
    assert x * p == q * (c * p) + r * p by { Regroup(q, c, r, p); }
    assert 0 <= r * p <= c * p - p by {
      MulLe(0, r, p);
      MulLe(r, c - 1, p);
      MulSucc(c - 1, p);
    }
    assert q < p by { QuotBound(x, q, r, p, c); }
    assert (r * p) % p == 0 by { DivModOf(r, 0, p); }
  }

  /** `(q * c + r) * p == q * (c * p) + r * p` */
  lemma Regroup(q: int, c: int, r: int, p: int)
    ensures (q * c + r) * p == q * (c * p) + r * p
  {
  }

  /**
   * The pieces of a word shifted left by `n`: the word that stays, and the
   * `n` bits that leave it at the top.
   */
  lemma ShlWord(x: Word, n: nat)
    requires 0 < n < 32
    ensures x * Pow2(n) == ShrW(x, 32 - n) * W32 + ShlW(x, n)
    ensures ShlW(x, n) <= W32 - Pow2(n) && ShlW(x, n) % Pow2(n) == 0
    ensures ShrW(x, 32 - n) < Pow2(n)
  {
    var p, c := Pow2(n), Pow2(32 - n);
    Pow2Split32(n);
    assert c * p == W32;
    SplitMul(x, c, p);
    var q, r := x / c, (x % c) * p;
    assert x * p == q * W32 + r;
    DivModOf(q, r, W32);
    assert ShlW(x, n) == r;
    assert ShrW(x, 32 - n) == q;
  }

  /** `(a * k + b) * p == (a * p) * k + b * p` */
  lemma Distrib(a: int, k: int, b: int, p: int)
    ensures (a * k + b) * p == (a * p) * k + b * p
  {
  }

  /** The word arithmetic behind the emulated 64-bit shift left of a pair. */
  lemma ShlPairArith(hi: Word, lo: Word, n: nat)
    requires 0 < n < 32
    ensures Or32(ShlW(hi, n), ShrW(lo, 32 - n)) * W32 + ShlW(lo, n) == ShlQ(hi * W32 + lo, n)
  {
    var p := Pow2(n);
    ShlWord(lo, n);
    ShlWord(hi, n);
    var a, b, l := ShlW(hi, n), ShrW(lo, 32 - n), ShlW(lo, n);
    OrDisjoint(a, b, n);
    assert Or32(a, b) == a + b;
    var x := (a + b) * W32 + l;
    assert 0 <= x < W64;
    Distrib(hi, W32, lo, p);
    assert (hi * W32 + lo) * p == ShrW(hi, 32 - n) * W64 + x;
    DivModOf(ShrW(hi, 32 - n), x, W64);
  }

  /** The word arithmetic behind the 64-bit shift left of a zero-extended word. */
  lemma ShlWidenArith(x: Word, n: nat)
    requires 0 < n < 32
    ensures ShrW(x, 32 - n) * W32 + ShlW(x, n) == ShlQ(x, n)
  {
    ShlWord(x, n);
    Pow2Consts();
    Pow2Split32(n);
    assert ShrW(x, 32 - n) <= W32 - 1;
    DivModOf(0, x * Pow2(n), W64);
  }

  /**
   * The pieces of a word shifted right by `n`, read as `h` (the word itself,
   * or its signed reading): the quotient that stays, and the `n` low bits
   * that leave it, placed at the top of the word below.
   */
  lemma ShrWord(x: Word, h: int, n: nat)
    requires 0 < n < 32 && (h == x || h == x - W32)
    ensures ShlW(x, 32 - n) == (h % Pow2(n)) * Pow2(32 - n)
    ensures ShlW(x, 32 - n) <= W32 - Pow2(32 - n) && ShlW(x, 32 - n) % Pow2(32 - n) == 0
    ensures h == (h / Pow2(n)) * Pow2(n) + h % Pow2(n)
  {
    var p, c := Pow2(n), Pow2(32 - n);
    assert p * c == W32 && c * p == W32 by { Pow2Split32(n); }
    var s, t := h / p, h % p;
    assert h == s * p + t && 0 <= t < p by { DivModSplit(h, p); }
    var s' := if h == x then s else s + c;
    assert x == s' * p + t by {
      if h != x {
        MulSucc(s, p);
        MulAdd(s, c, p);
      }
    }
    assert x % p == t by { DivModOf(s', t, p); }
    assert x * c == (x / p) * W32 + t * c && 0 <= t * c <= W32 - c && (t * c) % c == 0 by {
      SplitMul(x, p, c);
    }
    assert ShlW(x, 32 - n) == t * c by { DivModOf(x / p, t * c, W32); }
  }

  /** `(a + b) * p == a * p + b * p` */
  lemma MulAdd(a: int, b: int, p: int)
    ensures (a + b) * p == a * p + b * p
  {
  }

  /** The numerator of a 64-bit right shift by `n`, split into its quotient and remainder. */
  lemma ShrNumerator(h: int, lo: Word, n: nat)
    requires 0 < n < 32
    ensures var p, c := Pow2(n), Pow2(32 - n);
            (h * W32 + lo) / p == (h / p) * W32 + (h % p) * c + lo / p
  {
    var p, c := Pow2(n), Pow2(32 - n);
    Pow2Split32(n);
    DivModSplit(h, p);
    DivModSplit(lo, p);
    var s, t, q, r := h / p, h % p, lo / p, lo % p;
    assert h * W32 == (s * p + t) * (p * c);
    assert (s * p + t) * (p * c) == (s * W32 + t * c) * p;
    assert h * W32 + lo == (s * W32 + t * c + q) * p + r;
    DivModOf(s * W32 + t * c + q, r, p);
  }

  /**
   * The word arithmetic behind the emulated 64-bit shift right of a pair:
   * the low word takes the bits the high word shifts out.
   */
  lemma ShrPairArith(hi: Word, lo: Word, n: nat, signed: bool)
    requires 0 < n < 32
    ensures (if signed then AsrW(hi, n) else ShrW(hi, n)) * W32 + Or32(ShlW(hi, 32 - n), ShrW(lo, n))
         == (if signed then AsrQ(hi * W32 + lo, n) else ShrQ(hi * W32 + lo, n))
  {
    var p, c := Pow2(n), Pow2(32 - n);
    assert p * c == W32 by { Pow2Split32(n); }
    var h := if signed then S32(hi) else hi;
    var a, b := ShlW(hi, 32 - n), ShrW(lo, n);
    var s, t := h / p, h % p;
    assert a == t * c && a % c == 0 by { ShrWord(hi, h, n); }
    assert b < c by { SplitMul(lo, p, c); }
    var y := a + b;
    assert Or32(a, b) == y by { OrDisjoint(a, b, 32 - n); }
    assert (h * W32 + lo) / p == s * W32 + y by { ShrNumerator(h, lo, n); }
    var v := hi * W32 + lo;
    assert (if signed then S64(v) else v) == h * W32 + lo;
    if signed {
      assert (s * W32 + y) % W64 == (s % W32) * W32 + y by {
        assert 0 <= y < W32 by { ShrWord(hi, h, n); }
        DivModSplit(s, W32);
        assert s * W32 + y == (s / W32) * W64 + ((s % W32) * W32 + y);
        DivModOf(s / W32, (s % W32) * W32 + y, W64);
      }
    }
  }

  /** The word arithmetic behind the emulated 64-bit add: the carry of the low words enters the high word. */
  lemma AddPairArith(h0: Word, l0: Word, h1: Word, l1: Word)
    ensures (((l0 + l1) / W32 + (h0 + h1) % W32) % W32) * W32 + (l0 + l1) % W32
         == (h0 * W32 + l0 + h1 * W32 + l1) % W64
  {
    var c := (l0 + l1) / W32;
    var x := (((l0 + l1) / W32 + (h0 + h1) % W32) % W32) * W32 + (l0 + l1) % W32;
    var k := (c + h0 + h1) / W32;
    assert h0 * W32 + l0 + h1 * W32 + l1 == k * W64 + x;
    DivModOf(k, x, W64);
  }

  /** `asr` by 31 yields the high word of the sign extension. */
  lemma SextHigh(x: Word)
    ensures AsrW(x, 31) * W32 + x == Sext(x)
  {
    Pow2Consts();
    if x < 0x8000_0000 {
      DivModOf(0, x, 0x8000_0000);
    } else {
      DivModOf(-1, x - W32 + 0x8000_0000, 0x8000_0000);
      DivModOf(-1, W32 - 1, W32);
    }
  }

  /** The low half of an operand holds its value modulo 2^32. */
  lemma LoOfVal(m: Regs, o: Opnd)
    ensures Get(m, LoOf(o)) == Val(m, o) % W32
  {
    match o
    case QW(q, _) =>
      DivModOf(Get(m, Hi(q)), Get(m, Lo(q)), W32);
    case DW(d, s) =>
      var x := Get(m, Dw(d));
      if s && x >= 0x8000_0000 {
        DivModOf(0x1_0000_0000 - 1, x, W32);
      } else {
        DivModOf(0, x, W32);
      }
  }

  // ---------------------------------------------------------------------
  // The emitted shift sequences

  /** `eshl` of a 64-bit source: the high word takes the bits the low word shifts out. */
  function EshlPairCode(d: nat, s: nat, n: nat): seq<Op>
    requires 0 < n < 32
  {
    [Shr(Temp(0), R(Lo(s)), 32 - n), Shl(Hi(d), R(Hi(s)), n), Shl(Lo(d), R(Lo(s)), n), Or(Hi(d), R(Temp(0)), R(Hi(d)))]
  }

  /** The words `EshlPairCode` leaves in the destination halves. */
  lemma EshlPairState(d: nat, s: nat, n: nat, m: Regs)
    requires 0 < n < 32
    ensures Get(Exec(EshlPairCode(d, s, n), m), Hi(d)) == Or32(ShlW(Get(m, Hi(s)), n), ShrW(Get(m, Lo(s)), 32 - n))
    ensures Get(Exec(EshlPairCode(d, s, n), m), Lo(d)) == ShlW(Get(m, Lo(s)), n)
  {
    var hi, lo := Get(m, Hi(s)), Get(m, Lo(s));
    Exec4(Shr(Temp(0), R(Lo(s)), 32 - n), Shl(Hi(d), R(Hi(s)), n), Shl(Lo(d), R(Lo(s)), n), Or(Hi(d), R(Temp(0)), R(Hi(d))), m);
    var m1 := m[Temp(0) := ShrW(lo, 32 - n)];
    StepShift(m, Shr(Temp(0), R(Lo(s)), 32 - n));
    var m2 := m1[Hi(d) := ShlW(hi, n)];
    StepShift(m1, Shl(Hi(d), R(Hi(s)), n));
    StepShift(m2, Shl(Lo(d), R(Lo(s)), n));
    OrComm(ShrW(lo, 32 - n), ShlW(hi, n));
  }

  lemma EshlPairSem(d: nat, s: nat, n: nat, m: Regs)
    requires 0 < n < 32
    ensures Pair(Exec(EshlPairCode(d, s, n), m), d) == ShlQ(Pair(m, s), n)
  {
    EshlPairState(d, s, n, m);
    ShlPairArith(Get(m, Hi(s)), Get(m, Lo(s)), n);
  }

  /** `eshl` of a 32-bit source into a 64-bit destination. */
  function EshlWidenCode(d: nat, x: nat, n: nat): seq<Op>
    requires 0 < n < 32
  {
    [Shl(Lo(d), R(Dw(x)), n), Shr(Hi(d), R(Dw(x)), 32 - n)]
  }

  lemma EshlWidenState(d: nat, x: nat, n: nat, m: Regs)
    requires 0 < n < 32
    ensures Get(Exec(EshlWidenCode(d, x, n), m), Hi(d)) == ShrW(Get(m, Dw(x)), 32 - n)
    ensures Get(Exec(EshlWidenCode(d, x, n), m), Lo(d)) == ShlW(Get(m, Dw(x)), n)
  {
    Exec2(Shl(Lo(d), R(Dw(x)), n), Shr(Hi(d), R(Dw(x)), 32 - n), m);
  }

  lemma EshlWidenSem(d: nat, x: nat, n: nat, m: Regs)
    requires 0 < n < 32
    ensures Pair(Exec(EshlWidenCode(d, x, n), m), d) == ShlQ(Get(m, Dw(x)), n)
  {
    EshlWidenState(d, x, n, m);
    ShlWidenArith(Get(m, Dw(x)), n);
  }

  /**
   * `eshr` of a 64-bit source, with the low word taking the bits the HIGH
   * word shifts out.
   */
  function EshrPairCode(d: nat, s: nat, n: nat, signed: bool): seq<Op>
    requires 0 < n < 32
  {
    [Shl(Temp(0), R(Hi(s)), 32 - n),
     Shr(Lo(d), R(Lo(s)), n),
     if signed then Asr(Hi(d), R(Hi(s)), n) else Shr(Hi(d), R(Hi(s)), n),
     Or(Lo(d), R(Temp(0)), R(Lo(d)))]
  }

  /** `eshr`'s own code, given the word its first shift reads (`carried`). */
  function EshrCode(d: nat, s: nat, n: nat, signed: bool, carried: Loc): seq<Op>
    requires 0 < n < 32
  {
    [Shl(Temp(0), R(carried), 32 - n),
     Shr(Lo(d), R(Lo(s)), n),
     if signed then Asr(Hi(d), R(Hi(s)), n) else Shr(Hi(d), R(Hi(s)), n),
     Or(Lo(d), R(Temp(0)), R(Lo(d)))]
  }

  lemma EshrState(d: nat, s: nat, n: nat, signed: bool, carried: Loc, m: Regs)
    requires 0 < n < 32
    requires carried == Lo(s) || carried == Hi(s)
    ensures Get(Exec(EshrCode(d, s, n, signed, carried), m), Hi(d))
         == if signed then AsrW(Get(m, Hi(s)), n) else ShrW(Get(m, Hi(s)), n)
    ensures Get(Exec(EshrCode(d, s, n, signed, carried), m), Lo(d))
         == Or32(ShlW(Get(m, carried), 32 - n), ShrW(Get(m, Lo(s)), n))
  {
    var hi, lo, c := Get(m, Hi(s)), Get(m, Lo(s)), Get(m, carried);
    var third := if signed then Asr(Hi(d), R(Hi(s)), n) else Shr(Hi(d), R(Hi(s)), n);
    Exec4(Shl(Temp(0), R(carried), 32 - n), Shr(Lo(d), R(Lo(s)), n), third, Or(Lo(d), R(Temp(0)), R(Lo(d))), m);
    var m1 := m[Temp(0) := ShlW(c, 32 - n)];
    StepShift(m, Shl(Temp(0), R(carried), 32 - n));
    var m2 := m1[Lo(d) := ShrW(lo, n)];
    StepShift(m1, Shr(Lo(d), R(Lo(s)), n));
    StepShift(m2, third);
  }

  lemma EshrPairSem(d: nat, s: nat, n: nat, signed: bool, m: Regs)
    requires 0 < n < 32
    ensures Pair(Exec(EshrPairCode(d, s, n, signed), m), d)
         == if signed then AsrQ(Pair(m, s), n) else ShrQ(Pair(m, s), n)
  {
    assert EshrPairCode(d, s, n, signed) == EshrCode(d, s, n, signed, Hi(s));
    EshrState(d, s, n, signed, Hi(s), m);
    ShrPairArith(Get(m, Hi(s)), Get(m, Lo(s)), n, signed);
  }

  /** `eshr` of a 64-bit source as the generator writes it: the first shift reads the LOW word. */
  function EshrPairCodeAsWritten(d: nat, s: nat, n: nat, signed: bool): seq<Op>
    requires 0 < n < 32
  {
    [Shl(Temp(0), R(Lo(s)), 32 - n),
     Shr(Lo(d), R(Lo(s)), n),
     if signed then Asr(Hi(d), R(Hi(s)), n) else Shr(Hi(d), R(Hi(s)), n),
     Or(Lo(d), R(Temp(0)), R(Lo(d)))]
  }

  /**
   * As written, shifting 2^32 right by any count from 1 to 31 yields zero:
   * the bits that should cross from the high word into the low word are lost.
   */
  lemma EshrAsWrittenLosesBits(n: nat)
    requires 0 < n < 32
    ensures var m: Regs := map[Lo(0) := 0, Hi(0) := 1];
            Pair(Exec(EshrPairCodeAsWritten(1, 0, n, false), m), 1) == 0 &&
            ShrQ(Pair(m, 0), n) == Pow2(32 - n) > 0
  {
    var m: Regs := map[Lo(0) := 0, Hi(0) := 1];
    assert EshrPairCodeAsWritten(1, 0, n, false) == EshrCode(1, 0, n, false, Lo(0));
    EshrState(1, 0, n, false, Lo(0), m);
    assert Pair(m, 0) == W32;
    SmallShifts(n);
  }

  /** The shifts of the counterexample: 2^32 shifted right by `n` is 2^(32-n); 1 and 0 shift to 0. */
  lemma SmallShifts(n: nat)
    requires 0 < n < 32
    ensures ShrW(1, n) == 0 && ShrW(0, n) == 0 && ShlW(0, 32 - n) == 0 && Or32(0, 0) == 0
    ensures ShrQ(W32, n) == Pow2(32 - n) > 0
  {
    Pow2Mono(1, n);
    assert Pow2(1) == 2;
    DivModOf(0, 1, Pow2(n));
    DivModOf(0, 0, Pow2(n));
    Pow2Split32(n);
    MulDiv(Pow2(n), Pow2(32 - n));
  }

  /** `eshr` of a 32-bit source into a 64-bit destination: the high word is cleared. */
  function EshrWidenCode(d: nat, x: nat, n: nat, signed: bool): seq<Op>
  {
    [if signed then Asr(Lo(d), R(Dw(x)), n) else Shr(Lo(d), R(Dw(x)), n), Mov(Hi(d), K(0))]
  }

  lemma EshrWidenSem(d: nat, x: nat, n: nat, signed: bool, m: Regs)
    requires 0 < n < 32
    ensures Pair(Exec(EshrWidenCode(d, x, n, signed), m), d)
         == if signed then AsrW(Get(m, Dw(x)), n) else ShrQ(Get(m, Dw(x)), n)
  {
    Exec2(if signed then Asr(Lo(d), R(Dw(x)), n) else Shr(Lo(d), R(Dw(x)), n), Mov(Hi(d), K(0)), m);
  }
  // ---------------------------------------------------------------------
  // Emulation strategy

  /** Hardware generations in their enumeration order. */
  datatype HW = Unknown | Gen9 | Gen10 | Gen11 | Gen12LP | XeHP | XeHPG | XeHPC | Xe2 | Xe3

  function Rank(hw: HW): nat {
    match hw
    case Unknown => 0
    case Gen9 => 1
    case Gen10 => 2
    case Gen11 => 3
    case Gen12LP => 4
    case XeHP => 5
    case XeHPG => 6
    case XeHPC => 7
    case Xe2 => 8
    case Xe3 => 9
  }

  /** Which 64-bit operations the generator emulates with 32-bit ones. */
  datatype Strategy = Strategy(
    emulate64: bool,
    emulateDWxDW: bool,
    emulate64Add32: bool,
    emulate64Mul: bool,
    emulate64Logic: bool,
    noEmulate64Shift: bool)

  /** The default strategy: nothing is emulated. */
  const NoEmulation := Strategy(false, false, false, false, false, false)

  /**
   * The strategy for a hardware generation and stepping: 64-bit arithmetic is
   * emulated on Gen11, Gen12LP, XeHPG and early XeHPC steppings (which keep
   * native 64-bit shifts); later XeHPC steppings and newer generations only
   * emulate 64-bit multiplies and logic; DW x DW multiplies are emulated from
   * Gen11 on. `pvcB0` is the first XeHPC stepping with native 64-bit arithmetic.
   */
  method NewStrategy(hw: HW, stepping: int, pvcB0: int) returns (st: Strategy)
    ensures var early := hw == XeHPC && stepping < pvcB0;
            (st.emulate64 <==> hw == Gen11 || hw == Gen12LP || hw == XeHPG || early) &&
            (st.emulateDWxDW <==> Rank(hw) >= Rank(Gen11)) &&
            !st.emulate64Add32 &&
            (st.emulate64Mul <==> st.emulate64 || Rank(hw) >= Rank(XeHPC)) &&
            (st.emulate64Logic <==> Rank(hw) >= Rank(XeHPC) && !early) &&
            (st.noEmulate64Shift <==> early)
    ensures st.noEmulate64Shift ==> st.emulate64 && !st.emulate64Logic
    ensures st.emulate64Logic ==> !st.emulate64 && st.emulate64Mul
  {
    var e64, dwxdw, mul, logic, noShift := false, false, false, false, false;
    if hw == Gen11 {
      e64 := true;
    }
    if Rank(hw) >= Rank(Gen11) {
      dwxdw := true;
    }
    if hw == Gen12LP {
      e64 := true;
    }
    if hw == XeHPG {
      e64 := true;
    }
    if Rank(hw) >= Rank(XeHPC) {
      if hw == XeHPC && stepping < pvcB0 {
        e64, noShift := true, true;
      } else {
        mul, logic := true, true;
      }
    }
    mul := mul || e64;
    st := Strategy(e64, dwxdw, false, mul, logic, noShift);
  }

  // ---------------------------------------------------------------------
  // Immediates

  /** Immediate data types (the integer ones the helpers inspect). */
  datatype DataType = UW | W | UD | D | UQ | Q

  /** An immediate operand: its type and its 64-bit payload. */
  datatype Immediate = Immediate(t: DataType, bits: Word64)

  function S16(x: int): int
    requires 0 <= x < 0x10000
  {
    if x < 0x8000 then x else x - 0x10000
  }

  /** The value of an immediate, widened to 64 bits by sign or zero extension of its type. */
  function ImmValue(i: Immediate): int {
    match i.t
    case UW => i.bits % 0x10000
    case W => S16(i.bits % 0x10000)
    case UD => i.bits % W32
    case D => S32(i.bits % W32)
    case UQ => i.bits
    case Q => S64(i.bits)
  }

  /**
   * `splitToDW` of an immediate: a 64-bit immediate splits into its low and
   * high words (the high one signed when the immediate is); any other
   * immediate stays whole, with a zero high part.
   */
  function SplitImm(i: Immediate): (r: (Immediate, Immediate))
    ensures i.t == Q || i.t == UQ ==>
      r.0.t == UD && r.1.t == (if i.t == Q then D else UD) &&
      r.0.bits < W32 && r.1.bits < W32 && r.1.bits * W32 + r.0.bits == i.bits
    ensures i.t != Q && i.t != UQ ==> r.0 == i && ImmValue(r.1) == 0
  {
    if i.t == Q || i.t == UQ then
      DivModSplit(i.bits, W32);
      (Immediate(UD, i.bits % W32), Immediate(if i.t == Q then D else UD, i.bits / W32))
    else
      (i, Immediate(UW, 0))
  }

  /** A signed 64-bit immediate splits into a signed high word and an unsigned low word. */
  lemma SplitImmValue(i: Immediate)
    requires i.t == Q || i.t == UQ
    ensures ImmValue(SplitImm(i).1) * W32 + ImmValue(SplitImm(i).0) == ImmValue(i)
  {
    var r := SplitImm(i);
    DivModOf(r.1.bits, r.0.bits, W32);
    DivModOf(0, r.1.bits, W32);
    DivModOf(0, r.0.bits, W32);
    if i.t == Q && r.1.bits >= 0x8000_0000 {
      assert ImmValue(r.1) * W32 == r.1.bits * W32 - W64;
    }
  }

  /** `lowWord` of an immediate: bits 0 to 15. */
  function LowWord(i: Immediate): (r: Immediate)
    ensures r.t == UW && r.bits == i.bits % 0x10000
  {
    Immediate(UW, i.bits % 0x10000)
  }

  /** `highWord` of an immediate: bits 16 to 31. */
  function HighWord(i: Immediate): (r: Immediate)
    ensures r.t == UW && r.bits == (i.bits / 0x10000) % 0x10000
  {
    Immediate(UW, (i.bits / 0x10000) % 0x10000)
  }

  /** The two 16-bit halves reassemble the low 32 bits of the payload. */
  lemma WordsReassemble(i: Immediate)
    ensures HighWord(i).bits * 0x10000 + LowWord(i).bits == i.bits % W32
  {
    var b := i.bits;
    var q := b / 0x10000;
    DivModSplit(b, 0x10000);
    DivModSplit(q, 0x10000);
    var k := q / 0x10000;
    assert b == k * W32 + (q % 0x10000) * 0x10000 + b % 0x10000;
    DigitBound(q % 0x10000, b % 0x10000, 0x10000, 0x10000);
    DivModOf(k, (q % 0x10000) * 0x10000 + b % 0x10000, W32);
  }

  // ---------------------------------------------------------------------
  // Multiplication by an immediate

  predicate IsPow2(v: int)
    decreases if v < 0 then 0 else v
  {
    v >= 1 && (v == 1 || (v % 2 == 0 && IsPow2(v / 2)))
  }

  /** `log2` of a power of two. */
  function Log2(v: int): (k: nat)
    requires IsPow2(v)
    ensures Pow2(k) == v
    decreases v
  {
    if v == 1 then 0 else 1 + Log2(v / 2)
  }

  /** A power of two below 2^32 has a logarithm below 32. */
  lemma SmallLog2(v: int)
    requires IsPow2(v) && v < W32
    ensures Log2(v) < 32
  {
    Pow2Consts();
    if Log2(v) >= 32 {
      Pow2Mono(32, Log2(v));
    }
  }

  /** Powers of two are exactly the values `Pow2(k)`. */
  lemma {:induction false} Pow2IsPow2(k: nat)
    ensures IsPow2(Pow2(k))
  {
    if k > 0 {
      Pow2IsPow2(k - 1);
      assert Pow2(k) / 2 == Pow2(k - 1);
    }
  }

  lemma {:induction false} Pow2Mono(j: nat, k: nat)
    requires j <= k
    ensures Pow2(j) <= Pow2(k)
  {
    if j < k {
      Pow2Mono(j, k - 1);
    }
  }

  /** What `emul` by an immediate emits, as a plan. */
  datatype MulPlan =
    | MovZero         // the destination is cleared
    | MovSrc          // the source is copied
    | NoCode          // multiplying a register by one in place
    | ShlBy(k: nat)   // a left shift by k
    | Multiply        // a general (possibly emulated) multiply

  /** The effect of a non-multiplying plan on a 64-bit source value. */
  function PlanEffect(p: MulPlan, x: Word64): Word64 {
    match p
    case MovZero => 0
    case MovSrc => x
    case NoCode => x
    case ShlBy(k) => ShlQ(x, k)
    case Multiply => x
  }

  /**
   * `emul` by an immediate of at most 32 bits: zero clears, one copies (or
   * does nothing in place), a power of two shifts; anything else, and every
   * 64-bit immediate, multiplies.
   */
  function EmulImmPlan(dstIsSrc0: bool, i: Immediate): (r: MulPlan)
    ensures r.ShlBy? ==> 1 <= r.k < 32 && Pow2(r.k) == ImmValue(i)
    ensures r != Multiply ==> (i.t == UD || i.t == D || i.t == UW || i.t == W) && ImmValue(i) >= 0
    ensures r == Multiply <==>
      !(i.t == UD || i.t == D || i.t == UW || i.t == W) ||
      (ImmValue(i) != 0 && ImmValue(i) != 1 && !IsPow2(ImmValue(i)))
    ensures r == NoCode ==> dstIsSrc0
  {
    if i.t == UD || i.t == D || i.t == UW || i.t == W then
      var v := ImmValue(i);
      if v == 0 then MovZero
      else if v == 1 then (if dstIsSrc0 then NoCode else MovSrc)
      else if IsPow2(v) then
        var k := Log2(v);
        SmallLog2(v);
        ShlBy(k)
      else Multiply
    else Multiply
  }

  /** Every shortcut the plan takes multiplies by the immediate, modulo 2^64. */
  lemma PlanMultiplies(dstIsSrc0: bool, i: Immediate, x: Word64)
    requires EmulImmPlan(dstIsSrc0, i) != Multiply
    ensures PlanEffect(EmulImmPlan(dstIsSrc0, i), x) == (x * ImmValue(i)) % W64
  {
    var p := EmulImmPlan(dstIsSrc0, i);
    if p == MovSrc || p == NoCode {
      DivModOf(0, x, W64);
    }
  }

  /**
   * `emulConstant`: a 32-bit constant becomes an unsigned immediate when
   * positive and a signed one otherwise.
   */
  function EmulConstantImm(c: int): (i: Immediate)
    requires -0x8000_0000 <= c < 0x8000_0000
    ensures ImmValue(i) == c
    ensures i.t == (if c > 0 then UD else D)
  {
    if c > 0 then
      DivModOf(0, c, W32);
      Immediate(UD, c)
    else
      assert c % W32 == if c < 0 then c + W32 else 0 by {
        if c < 0 {
          DivModOf(-1, c + W32, W32);
        }
      }
      DivModOf(0, c % W32, W32);
      Immediate(D, c % W32)
  }

  /** The plan `emulConstant` follows for each kind of constant. */
  lemma EmulConstantPlan(dstIsSrc0: bool, c: int)
    requires -0x8000_0000 <= c < 0x8000_0000
    ensures var p := EmulImmPlan(dstIsSrc0, EmulConstantImm(c));
            (c == 0 ==> p == MovZero) &&
            (c == 1 ==> p == (if dstIsSrc0 then NoCode else MovSrc)) &&
            (c > 1 && IsPow2(c) ==> p == ShlBy(Log2(c))) &&
            (c < 0 || (c > 1 && !IsPow2(c)) ==> p == Multiply)
  {
  }
  // ---------------------------------------------------------------------
  // eshl and eshr

  /** A shift by zero changes nothing. */
  lemma ShiftZero(x: Word, v: Word64)
    ensures ShlW(x, 0) == x && ShrW(x, 0) == x && AsrW(x, 0) == x
    ensures ShlQ(v, 0) == v && ShrQ(v, 0) == v && AsrQ(v, 0) == v
  {
    assert Pow2(0) == 1;
    DivModOf(0, x, W32);
    DivModOf(0, v, W64);
    if x >= 0x8000_0000 {
      DivModOf(-1, x, W32);
    }
    if v >= 0x8000_0000_0000_0000 {
      DivModOf(-1, v, W64);
    }
  }

  /** The strategy emulates 64-bit shifts into this destination. */
  predicate EmulatesShift(st: Strategy, dst: Opnd) {
    dst.QW? && st.emulate64 && !st.noEmulate64Shift
  }

  /**
   * `eshl`: a left shift by an immediate count. A 64-bit destination under
   * an emulating strategy gets a 32-bit sequence, which only handles counts
   * below 32; otherwise one native shift is emitted, into the low half of a
   * 64-bit source when the destination is 32-bit. A count of zero is a move.
   */
  method Eshl(st: Strategy, dst: Opnd, src0: Opnd, n: nat) returns (res: Result<seq<Op>>)
    requires n < 0x10000
    ensures res.Err? <==> n != 0 && EmulatesShift(st, dst) && n >= 32
    ensures res.Ok? && dst.QW? && n < 64 && (src0.QW? || !src0.signed || !EmulatesShift(st, dst)) ==>
              forall m: Regs :: Pair(Exec(res.value, m), dst.q) == ShlQ(Val(m, src0), n)
    ensures res.Ok? && dst.DW? ==>
              forall m: Regs :: Get(Exec(res.value, m), Dw(dst.d)) == ShlW(Val(m, src0) % W32, n % 32)
    ensures res.Ok? && n != 0 && EmulatesShift(st, dst) ==> All32(res.value)
    ensures res.Ok? && n != 0 && EmulatesShift(st, dst) && src0.DW? ==>
              forall m: Regs :: Pair(Exec(res.value, m), dst.q) == ShlQ(Get(m, Dw(src0.d)), n)
    ensures res.Ok? && !(n != 0 && EmulatesShift(st, dst)) ==> |res.value| == 1
  {
    if n == 0 {
      EshlMoveSem(dst, src0);
      return Ok([Mov64(dst, src0)]);
    }
    if EmulatesShift(st, dst) {
      if n >= 32 {
        return Err("64-bit shift count of 32 or more");
      }
      if src0.QW? {
        EshlPairAll(dst.q, src0.q, n);
        return Ok(EshlPairCode(dst.q, src0.q, n));
      } else {
        EshlWidenAll(dst.q, src0.d, n);
        return Ok(EshlWidenCode(dst.q, src0.d, n));
      }
    }
    if dst.DW? {
      EshlLowSem(dst.d, src0, n);
      return Ok([Shl(Dw(dst.d), R(LoOf(src0)), n)]);
    }
    EshlNativeSem(dst, src0, n);
    return Ok([Shl64(dst, src0, n)]);
  }

  /** A left shift by zero is a move. */
  lemma EshlMoveSem(dst: Opnd, src0: Opnd)
    ensures forall m: Regs :: dst.QW? ==> Pair(Exec([Mov64(dst, src0)], m), dst.q) == ShlQ(Val(m, src0), 0)
    ensures forall m: Regs :: dst.DW? ==> Get(Exec([Mov64(dst, src0)], m), Dw(dst.d)) == ShlW(Val(m, src0) % W32, 0)
  {
    forall m: Regs
      ensures dst.QW? ==> Pair(Exec([Mov64(dst, src0)], m), dst.q) == ShlQ(Val(m, src0), 0)
      ensures dst.DW? ==> Get(Exec([Mov64(dst, src0)], m), Dw(dst.d)) == ShlW(Val(m, src0) % W32, 0)
    {
      Exec1(Mov64(dst, src0), m);
      ShiftZero(Val(m, src0) % W32, Val(m, src0));
    }
  }

  lemma EshlPairAll(d: nat, s: nat, n: nat)
    requires 0 < n < 32
    ensures forall m: Regs :: Pair(Exec(EshlPairCode(d, s, n), m), d) == ShlQ(Pair(m, s), n)
    ensures All32(EshlPairCode(d, s, n))
  {
    forall m: Regs
      ensures Pair(Exec(EshlPairCode(d, s, n), m), d) == ShlQ(Pair(m, s), n)
    {
      EshlPairSem(d, s, n, m);
    }
  }

  lemma EshlWidenAll(d: nat, x: nat, n: nat)
    requires 0 < n < 32
    ensures forall m: Regs :: Pair(Exec(EshlWidenCode(d, x, n), m), d) == ShlQ(Get(m, Dw(x)), n)
    ensures All32(EshlWidenCode(d, x, n))
  {
    forall m: Regs
      ensures Pair(Exec(EshlWidenCode(d, x, n), m), d) == ShlQ(Get(m, Dw(x)), n)
    {
      EshlWidenSem(d, x, n, m);
    }
  }

  /** A left shift into a 32-bit destination works on the low half of the source. */
  lemma EshlLowSem(d: nat, src0: Opnd, n: nat)
    ensures forall m: Regs :: Get(Exec([Shl(Dw(d), R(LoOf(src0)), n)], m), Dw(d)) == ShlW(Val(m, src0) % W32, n % 32)
  {
    forall m: Regs
      ensures Get(Exec([Shl(Dw(d), R(LoOf(src0)), n)], m), Dw(d)) == ShlW(Val(m, src0) % W32, n % 32)
    {
      Exec1(Shl(Dw(d), R(LoOf(src0)), n), m);
      LoOfVal(m, src0);
    }
  }

  lemma EshlNativeSem(dst: Opnd, src0: Opnd, n: nat)
    requires dst.QW?
    ensures forall m: Regs :: n < 64 ==> Pair(Exec([Shl64(dst, src0, n)], m), dst.q) == ShlQ(Val(m, src0), n)
  {
    forall m: Regs
      ensures n < 64 ==> Pair(Exec([Shl64(dst, src0, n)], m), dst.q) == ShlQ(Val(m, src0), n)
    {
      Exec1(Shl64(dst, src0, n), m);
    }
  }


  /** The right shift of a value: arithmetic for a signed operand, logical otherwise. */
  function ShrBy(v: Word64, n: nat, signed: bool): Word64 {
    if signed then AsrQ(v, n) else ShrQ(v, n)
  }

  function ShrWordBy(x: Word, n: nat, signed: bool): Word {
    if signed then AsrW(x, n) else ShrW(x, n)
  }

  /**
   * `eshr`: a right shift by an immediate count, arithmetic when the source
   * is signed. Emulated as `eshl` is; a 32-bit source shifted into a 64-bit
   * destination gets a zero high word.
   */
  method Eshr(st: Strategy, dst: Opnd, src0: Opnd, n: nat) returns (res: Result<seq<Op>>)
    requires n < 0x10000
    ensures res.Err? <==> n != 0 && EmulatesShift(st, dst) && n >= 32
    ensures res.Ok? && dst.QW? && n < 64 && (src0.QW? || !src0.signed || !EmulatesShift(st, dst)) ==>
              forall m: Regs :: Pair(Exec(res.value, m), dst.q) == ShrBy(Val(m, src0), n, src0.signed)
    ensures res.Ok? && dst.DW? ==>
              forall m: Regs :: Get(Exec(res.value, m), Dw(dst.d)) == ShrWordBy(Val(m, src0) % W32, n % 32, src0.signed)
    ensures res.Ok? && n != 0 && EmulatesShift(st, dst) ==> All32(res.value)
    ensures res.Ok? && n != 0 && EmulatesShift(st, dst) && src0.DW? ==>
              forall m: Regs :: Pair(Exec(res.value, m), dst.q) == ShrWordBy(Get(m, Dw(src0.d)), n, src0.signed)
    ensures res.Ok? && !(n != 0 && EmulatesShift(st, dst)) ==> |res.value| == 1
  {
    if n == 0 {
      EshrMoveSem(dst, src0);
      return Ok([Mov64(dst, src0)]);
    }
    if EmulatesShift(st, dst) {
      if n >= 32 {
        return Err("64-bit shift count of 32 or more");
      }
      if src0.QW? {
        EshrPairAll(dst.q, src0.q, n, src0.signed);
        return Ok(EshrPairCode(dst.q, src0.q, n, src0.signed));
      } else {
        EshrWidenAll(dst.q, src0.d, n, src0.signed);
        return Ok(EshrWidenCode(dst.q, src0.d, n, src0.signed));
      }
    }
    if dst.DW? {
      var op := if src0.signed then Asr(Dw(dst.d), R(LoOf(src0)), n) else Shr(Dw(dst.d), R(LoOf(src0)), n);
      EshrLowSem(dst.d, src0, n);
      return Ok([op]);
    }
    var op := if src0.signed then Asr64(dst, src0, n) else Shr64(dst, src0, n);
    EshrNativeSem(dst, src0, n);
    return Ok([op]);
  }

  /** A right shift by zero is a move. */
  lemma EshrMoveSem(dst: Opnd, src0: Opnd)
    ensures forall m: Regs :: dst.QW? ==> Pair(Exec([Mov64(dst, src0)], m), dst.q) == ShrBy(Val(m, src0), 0, src0.signed)
    ensures forall m: Regs :: dst.DW? ==> Get(Exec([Mov64(dst, src0)], m), Dw(dst.d)) == ShrWordBy(Val(m, src0) % W32, 0, src0.signed)
  {
    forall m: Regs
      ensures dst.QW? ==> Pair(Exec([Mov64(dst, src0)], m), dst.q) == ShrBy(Val(m, src0), 0, src0.signed)
      ensures dst.DW? ==> Get(Exec([Mov64(dst, src0)], m), Dw(dst.d)) == ShrWordBy(Val(m, src0) % W32, 0, src0.signed)
    {
      Exec1(Mov64(dst, src0), m);
      ShiftZero(Val(m, src0) % W32, Val(m, src0));
    }
  }

  lemma EshrPairAll(d: nat, s: nat, n: nat, signed: bool)
    requires 0 < n < 32
    ensures forall m: Regs :: Pair(Exec(EshrPairCode(d, s, n, signed), m), d) == ShrBy(Pair(m, s), n, signed)
    ensures All32(EshrPairCode(d, s, n, signed))
  {
    forall m: Regs
      ensures Pair(Exec(EshrPairCode(d, s, n, signed), m), d) == ShrBy(Pair(m, s), n, signed)
    {
      EshrPairSem(d, s, n, signed, m);
    }
  }

  lemma EshrWidenAll(d: nat, x: nat, n: nat, signed: bool)
    requires 0 < n < 32
    ensures forall m: Regs :: Pair(Exec(EshrWidenCode(d, x, n, signed), m), d) == ShrWordBy(Get(m, Dw(x)), n, signed)
    ensures forall m: Regs :: !signed ==> Pair(Exec(EshrWidenCode(d, x, n, signed), m), d) == ShrQ(Get(m, Dw(x)), n)
    ensures All32(EshrWidenCode(d, x, n, signed))
  {
    forall m: Regs
      ensures Pair(Exec(EshrWidenCode(d, x, n, signed), m), d) == ShrWordBy(Get(m, Dw(x)), n, signed)
      ensures !signed ==> Pair(Exec(EshrWidenCode(d, x, n, signed), m), d) == ShrQ(Get(m, Dw(x)), n)
    {
      EshrWidenSem(d, x, n, signed, m);
    }
  }

  /** A right shift into a 32-bit destination works on the low half of the source. */
  lemma EshrLowSem(d: nat, src0: Opnd, n: nat)
    ensures var op := if src0.signed then Asr(Dw(d), R(LoOf(src0)), n) else Shr(Dw(d), R(LoOf(src0)), n);
            forall m: Regs :: Get(Exec([op], m), Dw(d)) == ShrWordBy(Val(m, src0) % W32, n % 32, src0.signed)
  {
    var op := if src0.signed then Asr(Dw(d), R(LoOf(src0)), n) else Shr(Dw(d), R(LoOf(src0)), n);
    forall m: Regs
      ensures Get(Exec([op], m), Dw(d)) == ShrWordBy(Val(m, src0) % W32, n % 32, src0.signed)
    {
      Exec1(op, m);
      LoOfVal(m, src0);
    }
  }

  lemma EshrNativeSem(dst: Opnd, src0: Opnd, n: nat)
    requires dst.QW?
    ensures var op := if src0.signed then Asr64(dst, src0, n) else Shr64(dst, src0, n);
            forall m: Regs :: n < 64 ==> Pair(Exec([op], m), dst.q) == ShrBy(Val(m, src0), n, src0.signed)
  {
    var op := if src0.signed then Asr64(dst, src0, n) else Shr64(dst, src0, n);
    forall m: Regs
      ensures n < 64 ==> Pair(Exec([op], m), dst.q) == ShrBy(Val(m, src0), n, src0.signed)
    {
      Exec1(op, m);
    }
  }

  // ---------------------------------------------------------------------
  // eaddInternal

  lemma AddMod(a: nat, b: nat, w: nat)
    requires w > 0
    ensures (a % w + b % w) % w == (a + b) % w
  {
    DivModSplit(a, w);
    DivModSplit(b, w);
    var s := a % w + b % w;
    DivModSplit(s, w);
    assert a + b == (a / w + b / w + s / w) * w + s % w;
    DivModOf(a / w + b / w + s / w, s % w, w);
  }

  lemma ModMod(x: nat)
    ensures (x % W64) % W32 == x % W32
  {
    var r := x % W64;
    DivModSplit(x, W64);
    DivModSplit(r, W32);
    assert x == ((x / W64) * W32 + r / W32) * W32 + r % W32;
    DivModOf((x / W64) * W32 + r / W32, r % W32, W32);
  }

  lemma WordMod(x: Word)
    ensures x % W32 == x
  {
    DivModOf(0, x, W32);
  }

  /** A 32-bit operand that is signed (`d`); the low half of a 64-bit operand counts as unsigned. */
  predicate Signed32(o: Opnd) {
    o.DW? && o.signed
  }

  /** The high word a 64-bit operand brings to the `add32` shortcut; none for a 32-bit one. */
  function QHigh(m: Regs, o: Opnd): Word {
    if o.QW? then Get(m, Hi(o.q)) else 0
  }

  /** An unsigned operand is its high word followed by its low word. */
  lemma UnsignedSplit(m: Regs, o: Opnd)
    requires !Signed32(o)
    ensures Val(m, o) == QHigh(m, o) * W32 + Get(m, LoOf(o))
  {
  }

  /** `equal(dstHi, srcHi)`: the same register half read with the same signedness. */
  predicate SameHi(dst: Opnd, o: Opnd) {
    dst.QW? && o.QW? && dst.q == o.q && dst.signed == o.signed
  }

  /** Two 64-bit sources, one of which shares its high half with the destination: the shortcut then adds nothing to the high word. */
  predicate InPlaceHigh(dst: Opnd, src0: Opnd, src1: Opnd) {
    src0.QW? && src1.QW? && (SameHi(dst, src0) || SameHi(dst, src1))
  }

  /**
   * The high half the `add32` shortcut writes: two 64-bit sources add their
   * high words unless one of them is the destination's, which is then kept;
   * a single 64-bit source is copied unless it already is the destination's.
   */
  function Add32High(dst: Opnd, src0: Opnd, src1: Opnd): seq<Op>
    requires dst.QW?
  {
    if src0.QW? && src1.QW? then
      (if InPlaceHigh(dst, src0, src1) then [] else [Add(Hi(dst.q), R(Hi(src0.q)), R(Hi(src1.q)))])
    else if src0.QW? then (if SameHi(dst, src0) then [] else [Mov(Hi(dst.q), R(Hi(src0.q)))])
    else if src1.QW? then (if SameHi(dst, src1) then [] else [Mov(Hi(dst.q), R(Hi(src1.q)))])
    else [Mov(Hi(dst.q), K(0))]
  }

  /** The `add32` shortcut: the low words add without carry, the high words on their own. */
  function Add32Code(dst: Opnd, src0: Opnd, src1: Opnd): seq<Op>
    requires dst.QW?
  {
    [Add(Lo(dst.q), R(LoOf(src0)), R(LoOf(src1)))] + Add32High(dst, src0, src1)
  }

  /** The high word the shortcut leaves: the destination's own when it aliases a source, else the high words' sum. */
  function Add32KeptHigh(m: Regs, dst: Opnd, src0: Opnd, src1: Opnd): Word
    requires dst.QW?
  {
    if InPlaceHigh(dst, src0, src1) then Get(m, Hi(dst.q)) else (QHigh(m, src0) + QHigh(m, src1)) % W32
  }

  lemma Add32State(dst: Opnd, src0: Opnd, src1: Opnd, m: Regs)
    requires dst.QW?
    ensures Get(Exec(Add32Code(dst, src0, src1), m), Lo(dst.q)) == (Get(m, LoOf(src0)) + Get(m, LoOf(src1))) % W32
    ensures Get(Exec(Add32Code(dst, src0, src1), m), Hi(dst.q)) == Add32KeptHigh(m, dst, src0, src1)
    ensures !InPlaceHigh(dst, src0, src1) ==>
              Get(Exec(Add32Code(dst, src0, src1), m), Hi(dst.q)) == (QHigh(m, src0) + QHigh(m, src1)) % W32
    ensures All32(Add32Code(dst, src0, src1))
  {
    var lo := Add(Lo(dst.q), R(LoOf(src0)), R(LoOf(src1)));
    var high := Add32High(dst, src0, src1);
    ExecApp([lo], high, m);
    Exec1(lo, m);
    var m1 := Step(m, lo);
    WordMod(QHigh(m, src0));
    WordMod(QHigh(m, src1));
    if |high| == 1 {
      Exec1(high[0], m1);
    }
  }

  /** The arithmetic of the shortcut: it is the 64-bit sum exactly when the low words do not carry. */
  lemma Add32Arith(h0: Word, l0: Word, h1: Word, l1: Word)
    ensures ((h0 + h1) % W32) * W32 + (l0 + l1) % W32 == (h0 * W32 + l0 + h1 * W32 + l1) % W64
        <==> l0 + l1 < W32
  {
    AddPairArith(h0, l0, h1, l1);
    var c := (l0 + l1) / W32;
    var h := (h0 + h1) % W32;
    if l0 + l1 >= W32 {
      DivModOf(1, l0 + l1 - W32, W32);
      if h * W32 + (l0 + l1) % W32 == ((c + h) % W32) * W32 + (l0 + l1) % W32 {
        DigitsEq(h, (l0 + l1) % W32, (c + h) % W32, (l0 + l1) % W32, W32);
        if h + 1 < W32 {
          DivModOf(0, h + 1, W32);
        } else {
          DivModOf(1, 0, W32);
        }
      }
    } else {
      DivModOf(0, l0 + l1, W32);
      DivModOf(0, h, W32);
    }
  }

  /**
   * When the destination's high half is not a source's, the `add32`
   * shortcut computes the 64-bit sum of unsigned sources exactly when the
   * low words do not cross a 2^32 boundary.
   */
  lemma Add32Exact(dst: Opnd, src0: Opnd, src1: Opnd, m: Regs)
    requires dst.QW? && !Signed32(src0) && !Signed32(src1) && !InPlaceHigh(dst, src0, src1)
    ensures Pair(Exec(Add32Code(dst, src0, src1), m), dst.q) == (Val(m, src0) + Val(m, src1)) % W64
        <==> Get(m, LoOf(src0)) + Get(m, LoOf(src1)) < W32
  {
    Add32State(dst, src0, src1, m);
    UnsignedSplit(m, src0);
    UnsignedSplit(m, src1);
    Add32Arith(QHigh(m, src0), Get(m, LoOf(src0)), QHigh(m, src1), Get(m, LoOf(src1)));
  }

  /**
   * When the destination shares its high half with a 64-bit source, the
   * shortcut keeps that high word, so it computes the 64-bit sum exactly
   * when the sum stays inside that source's 2^32 segment.
   */
  lemma Add32InPlaceExact(dst: Opnd, src0: Opnd, src1: Opnd, m: Regs)
    requires dst.QW? && InPlaceHigh(dst, src0, src1)
    ensures Pair(Exec(Add32Code(dst, src0, src1), m), dst.q) == (Val(m, src0) + Val(m, src1)) % W64
        <==> ((Val(m, src0) + Val(m, src1)) % W64) / W32 == Get(m, Hi(dst.q))
  {
    Add32State(dst, src0, src1, m);
    var h0, l0, h1, l1 := Get(m, Hi(src0.q)), Get(m, Lo(src0.q)), Get(m, Hi(src1.q)), Get(m, Lo(src1.q));
    var s := (Val(m, src0) + Val(m, src1)) % W64;
    var x := ((l0 + l1) / W32 + (h0 + h1) % W32) % W32;
    AddPairArith(h0, l0, h1, l1);
    DivModOf(x, (l0 + l1) % W32, W32);
    assert s / W32 == x && s % W32 == (l0 + l1) % W32;
    var r := Pair(Exec(Add32Code(dst, src0, src1), m), dst.q);
    assert r == Get(m, Hi(dst.q)) * W32 + (l0 + l1) % W32;
    if r == s {
      DigitsEq(Get(m, Hi(dst.q)), (l0 + l1) % W32, x, (l0 + l1) % W32, W32);
    }
  }

  /** Where the slow path computes the low word (`dstLo` with an offset, strided, or in place). */
  datatype LowLayout = Direct | OffsetLow | Strided

  function LayoutOf(dstLoOffset: nat, execSize: nat, unitStride: bool): LowLayout {
    if dstLoOffset != 0 then OffsetLow
    else if execSize > 1 && !unitStride then Strided
    else Direct
  }

  /** Exactly one source is a signed 32-bit operand, which is sign-extended first. */
  predicate LateCarry(src0: Opnd, src1: Opnd) {
    Signed32(src0) != Signed32(src1)
  }

  /** The carry lives in the second temporary when the first holds a sign extension. */
  function CarryLoc(late: bool): Loc {
    if late then Temp(1) else Temp(0)
  }

  /** The sign extension of the one signed 32-bit source into the first temporary. */
  function ExtCode(src0: Opnd, src1: Opnd): seq<Op> {
    if Signed32(src0) && !Signed32(src1) then [Asr(Temp(0), R(Dw(src0.d)), 31)]
    else if Signed32(src1) && !Signed32(src0) then [Asr(Temp(0), R(Dw(src1.d)), 31)]
    else []
  }

  /** The high word of a source on the slow path, if it has one. */
  function HighOf(o: Opnd, late: bool): Option<Src> {
    if o.QW? then Some(R(Hi(o.q)))
    else if late && Signed32(o) then Some(R(Temp(0)))
    else None
  }

  function HighVal(m: Regs, h: Option<Src>): Word {
    if h.Some? then Rd(m, h.value) else 0
  }

  /** The low word and its carry, in the order each layout needs. */
  function LowCode(layout: LowLayout, d: nat, a: Src, b: Src, late: bool): seq<Op> {
    match layout
    case Direct => [Addc(Lo(d), a, b), Mov(CarryLoc(late), R(Acc0))]
    case OffsetLow => [Addc(Null, a, b), Add(Lo(d), a, b), Mov(CarryLoc(late), R(Acc0))]
    case Strided =>
      if late then [Addc(Temp(1), a, b), Mov(Lo(d), R(Temp(1))), Mov(Temp(1), R(Acc0))]
      else [Addc(Temp(1), a, b), Mov(Temp(0), R(Acc0)), Mov(Lo(d), R(Temp(1)))]
  }

  /** The high word: the high words of the sources, plus the carry. */
  function HighCode(d: nat, carry: Loc, h0: Option<Src>, h1: Option<Src>): seq<Op> {
    if h0.Some? && h1.Some? then [Add(Hi(d), h0.value, h1.value), Add(Hi(d), R(carry), R(Hi(d)))]
    else if h0.Some? then [Add(Hi(d), R(carry), h0.value)]
    else if h1.Some? then [Add(Hi(d), R(carry), h1.value)]
    else [Mov(Hi(d), R(carry))]
  }

  /** The slow path: sign extension, low word with carry, high word. */
  function SlowAddCode(d: nat, src0: Opnd, src1: Opnd, layout: LowLayout): seq<Op> {
    var late := LateCarry(src0, src1);
    ExtCode(src0, src1) + LowCode(layout, d, R(LoOf(src0)), R(LoOf(src1)), late)
      + HighCode(d, CarryLoc(late), HighOf(src0, late), HighOf(src1, late))
  }

  /** `asr` by 31 leaves the sign-extension word of a 32-bit register in the first temporary. */
  lemma SignExtendSem(x: nat, m: Regs)
    ensures Get(Exec([Asr(Temp(0), R(Dw(x)), 31)], m), Temp(0)) * W32 + Get(m, Dw(x)) == Sext(Get(m, Dw(x)))
    ensures forall l :: l != Temp(0) ==> Get(Exec([Asr(Temp(0), R(Dw(x)), 31)], m), l) == Get(m, l)
  {
    SignExtendState(x, m);
    SextHigh(Get(m, Dw(x)));
  }

  lemma SignExtendState(x: nat, m: Regs)
    ensures Get(Exec([Asr(Temp(0), R(Dw(x)), 31)], m), Temp(0)) == AsrW(Get(m, Dw(x)), 31)
    ensures forall l :: l != Temp(0) ==> Get(Exec([Asr(Temp(0), R(Dw(x)), 31)], m), l) == Get(m, l)
  {
    Exec1(Asr(Temp(0), R(Dw(x)), 31), m);
    assert Exec([Asr(Temp(0), R(Dw(x)), 31)], m) == m[Temp(0) := AsrW(Get(m, Dw(x)), 31)];
  }

  /** The high word each source brings, after the sign extension, completes its value. */
  lemma ExtSem(src0: Opnd, src1: Opnd, m: Regs)
    requires !(Signed32(src0) && Signed32(src1))
    ensures Get(Exec(ExtCode(src0, src1), m), LoOf(src0)) == Get(m, LoOf(src0))
    ensures Get(Exec(ExtCode(src0, src1), m), LoOf(src1)) == Get(m, LoOf(src1))
    ensures HighVal(Exec(ExtCode(src0, src1), m), HighOf(src0, LateCarry(src0, src1))) * W32 + Get(m, LoOf(src0)) == Val(m, src0)
    ensures HighVal(Exec(ExtCode(src0, src1), m), HighOf(src1, LateCarry(src0, src1))) * W32 + Get(m, LoOf(src1)) == Val(m, src1)
  {
    var m1 := Exec(ExtCode(src0, src1), m);
    if Signed32(src0) {
      SignExtendSem(src0.d, m);
      assert Get(m1, LoOf(src1)) == Get(m, LoOf(src1));
      if src1.QW? {
        assert Get(m1, Hi(src1.q)) == Get(m, Hi(src1.q));
      }
    } else if Signed32(src1) {
      SignExtendSem(src1.d, m);
      assert Get(m1, LoOf(src0)) == Get(m, LoOf(src0));
      if src0.QW? {
        assert Get(m1, Hi(src0.q)) == Get(m, Hi(src0.q));
      }
    } else {
      assert m1 == m;
    }
  }

  /** The two sources of the low add are read before anything is stored over them. */
  predicate LowSource(a: Src) {
    a.R? && (a.loc.Lo? || a.loc.Dw?)
  }

  /** What the low add leaves behind: the low word, the carry, and untouched high words. */
  ghost predicate LowDone(m: Regs, m2: Regs, d: nat, a: Src, b: Src, late: bool) {
    Get(m2, Lo(d)) == (Rd(m, a) + Rd(m, b)) % W32 &&
    Get(m2, CarryLoc(late)) == (Rd(m, a) + Rd(m, b)) / W32 &&
    (forall q :: Get(m2, Hi(q)) == Get(m, Hi(q))) &&
    (late ==> Get(m2, Temp(0)) == Get(m, Temp(0)))
  }

  lemma LowDirectSem(d: nat, a: Src, b: Src, late: bool, m: Regs)
    requires LowSource(a) && LowSource(b)
    ensures LowDone(m, Exec(LowCode(Direct, d, a, b, late), m), d, a, b, late)
  {
    Exec2(Addc(Lo(d), a, b), Mov(CarryLoc(late), R(Acc0)), m);
  }

  lemma LowOffsetSem(d: nat, a: Src, b: Src, late: bool, m: Regs)
    requires LowSource(a) && LowSource(b)
    ensures LowDone(m, Exec(LowCode(OffsetLow, d, a, b, late), m), d, a, b, late)
  {
    Exec3(Addc(Null, a, b), Add(Lo(d), a, b), Mov(CarryLoc(late), R(Acc0)), m);
  }

  lemma LowStridedSem(d: nat, a: Src, b: Src, late: bool, m: Regs)
    requires LowSource(a) && LowSource(b)
    ensures LowDone(m, Exec(LowCode(Strided, d, a, b, late), m), d, a, b, late)
  {
    if late {
      Exec3(Addc(Temp(1), a, b), Mov(Lo(d), R(Temp(1))), Mov(Temp(1), R(Acc0)), m);
    } else {
      Exec3(Addc(Temp(1), a, b), Mov(Temp(0), R(Acc0)), Mov(Lo(d), R(Temp(1))), m);
    }
  }

  lemma LowSem(layout: LowLayout, d: nat, a: Src, b: Src, late: bool, m: Regs)
    requires LowSource(a) && LowSource(b)
    ensures LowDone(m, Exec(LowCode(layout, d, a, b, late), m), d, a, b, late)
  {
    match layout
    case Direct => LowDirectSem(d, a, b, late, m);
    case OffsetLow => LowOffsetSem(d, a, b, late, m);
    case Strided => LowStridedSem(d, a, b, late, m);
  }

  lemma HighSem(d: nat, carry: Loc, h0: Option<Src>, h1: Option<Src>, m: Regs)
    requires carry.Temp?
    ensures Get(Exec(HighCode(d, carry, h0, h1), m), Hi(d))
         == (Get(m, carry) + (HighVal(m, h0) + HighVal(m, h1)) % W32) % W32
    ensures Get(Exec(HighCode(d, carry, h0, h1), m), Lo(d)) == Get(m, Lo(d))
  {
    var code := HighCode(d, carry, h0, h1);
    WordMod(HighVal(m, h0));
    WordMod(HighVal(m, h1));
    WordMod(Get(m, carry));
    if |code| == 2 {
      Exec2(code[0], code[1], m);
    } else {
      Exec1(code[0], m);
    }
  }

  /** The high word of a source survives the low add. */
  lemma LowKeepsHigh(m: Regs, m2: Regs, d: nat, a: Src, b: Src, o: Opnd, late: bool)
    requires LowDone(m, m2, d, a, b, late)
    ensures HighVal(m2, HighOf(o, late)) == HighVal(m, HighOf(o, late))
  {
    if o.QW? {
      assert Get(m2, Hi(o.q)) == Get(m, Hi(o.q));
    }
  }

  lemma SlowAddExec(d: nat, src0: Opnd, src1: Opnd, layout: LowLayout, m: Regs)
    ensures var late := LateCarry(src0, src1);
            Exec(SlowAddCode(d, src0, src1, layout), m)
            == Exec(HighCode(d, CarryLoc(late), HighOf(src0, late), HighOf(src1, late)),
                    Exec(LowCode(layout, d, R(LoOf(src0)), R(LoOf(src1)), late), Exec(ExtCode(src0, src1), m)))
  {
    var late := LateCarry(src0, src1);
    var ext := ExtCode(src0, src1);
    var low := LowCode(layout, d, R(LoOf(src0)), R(LoOf(src1)), late);
    var high := HighCode(d, CarryLoc(late), HighOf(src0, late), HighOf(src1, late));
    ExecApp(ext, low, m);
    ExecApp(ext + low, high, m);
  }

  /** A high word source of the slow path: a high half, or the sign extension when the carry is late. */
  predicate HighSource(h: Option<Src>, late: bool) {
    h.None? || (h.value.R? && (h.value.loc.Hi? || (late && h.value.loc == Temp(0))))
  }

  lemma KeepsHighSource(m: Regs, m2: Regs, d: nat, a: Src, b: Src, h: Option<Src>, late: bool)
    requires LowDone(m, m2, d, a, b, late) && HighSource(h, late)
    ensures HighVal(m2, h) == HighVal(m, h)
  {
    if h.Some? && h.value.loc.Hi? {
      assert Get(m2, Hi(h.value.loc.q)) == Get(m, Hi(h.value.loc.q));
    }
  }

  /** The low add followed by the high add, for any sources of the right kinds. */
  lemma LowHighSem(layout: LowLayout, d: nat, a: Src, b: Src, late: bool, h0: Option<Src>, h1: Option<Src>, m1: Regs)
    requires LowSource(a) && LowSource(b) && HighSource(h0, late) && HighSource(h1, late)
    ensures var m3 := Exec(HighCode(d, CarryLoc(late), h0, h1), Exec(LowCode(layout, d, a, b, late), m1));
            Get(m3, Lo(d)) == (Rd(m1, a) + Rd(m1, b)) % W32 &&
            Get(m3, Hi(d)) == ((Rd(m1, a) + Rd(m1, b)) / W32 + (HighVal(m1, h0) + HighVal(m1, h1)) % W32) % W32
  {
    var m2 := Exec(LowCode(layout, d, a, b, late), m1);
    LowSem(layout, d, a, b, late, m1);
    KeepsHighSource(m1, m2, d, a, b, h0, late);
    KeepsHighSource(m1, m2, d, a, b, h1, late);
    HighSem(d, CarryLoc(late), h0, h1, m2);
  }

  /** The words the slow path leaves in the destination, before any arithmetic is done on them. */
  lemma SlowAddState(d: nat, src0: Opnd, src1: Opnd, layout: LowLayout, m: Regs)
    requires !(Signed32(src0) && Signed32(src1))
    ensures var late := LateCarry(src0, src1);
            var m1 := Exec(ExtCode(src0, src1), m);
            var l0, l1 := Get(m, LoOf(src0)), Get(m, LoOf(src1));
            var m3 := Exec(SlowAddCode(d, src0, src1, layout), m);
            Get(m3, Lo(d)) == (l0 + l1) % W32 &&
            Get(m3, Hi(d)) == ((l0 + l1) / W32 + (HighVal(m1, HighOf(src0, late)) + HighVal(m1, HighOf(src1, late))) % W32) % W32
  {
    var late := LateCarry(src0, src1);
    var m1 := Exec(ExtCode(src0, src1), m);
    var a, b := R(LoOf(src0)), R(LoOf(src1));
    var h0, h1 := HighOf(src0, late), HighOf(src1, late);
    var m3 := Exec(HighCode(d, CarryLoc(late), h0, h1), Exec(LowCode(layout, d, a, b, late), m1));
    SlowAddExec(d, src0, src1, layout, m);
    ExtSem(src0, src1, m);
    assert Rd(m1, a) == Get(m, LoOf(src0)) && Rd(m1, b) == Get(m, LoOf(src1));
    LowHighSem(layout, d, a, b, late, h0, h1, m1);
  }

  /** The slow path computes the 64-bit sum of any two sources that are not both signed 32-bit. */
  lemma SlowAddSem(d: nat, src0: Opnd, src1: Opnd, layout: LowLayout, m: Regs)
    requires !(Signed32(src0) && Signed32(src1))
    ensures Pair(Exec(SlowAddCode(d, src0, src1, layout), m), d) == (Val(m, src0) + Val(m, src1)) % W64
  {
    var late := LateCarry(src0, src1);
    var m1 := Exec(ExtCode(src0, src1), m);
    var r := Exec(SlowAddCode(d, src0, src1, layout), m);
    SlowAddState(d, src0, src1, layout, m);
    ExtSem(src0, src1, m);
    SumOfHalves(Get(r, Lo(d)), Get(r, Hi(d)), Get(m, LoOf(src0)), Get(m, LoOf(src1)),
                HighVal(m1, HighOf(src0, late)), HighVal(m1, HighOf(src1, late)), Val(m, src0), Val(m, src1));
  }

  /** Words computed as the slow path computes them make up the 64-bit sum. */
  lemma SumOfHalves(lo: Word, hi: Word, l0: Word, l1: Word, h0: Word, h1: Word, v0: int, v1: int)
    requires lo == (l0 + l1) % W32
    requires hi == ((l0 + l1) / W32 + (h0 + h1) % W32) % W32
    requires h0 * W32 + l0 == v0 && h1 * W32 + l1 == v1
    ensures hi * W32 + lo == (v0 + v1) % W64
  {
    AddPairArith(h0, l0, h1, l1);
  }

  /** Every instruction of the slow path is a 32-bit one. */
  lemma SlowAddAll32(d: nat, src0: Opnd, src1: Opnd, layout: LowLayout)
    ensures All32(SlowAddCode(d, src0, src1, layout))
  {
  }

  /** What the `add32` shortcut leaves in a 64-bit destination: the kept high word over the low words' sum. */
  function Add32Sum(m: Regs, dst: Opnd, src0: Opnd, src1: Opnd): Word64
    requires dst.QW?
  {
    DigitBound(Add32KeptHigh(m, dst, src0, src1), (Val(m, src0) + Val(m, src1)) % W32, W32, W32);
    Add32KeptHigh(m, dst, src0, src1) * W32 + (Val(m, src0) + Val(m, src1)) % W32
  }

  lemma Add32Sem(dst: Opnd, src0: Opnd, src1: Opnd, m: Regs)
    requires dst.QW?
    ensures Pair(Exec(Add32Code(dst, src0, src1), m), dst.q) == Add32Sum(m, dst, src0, src1)
  {
    Add32State(dst, src0, src1, m);
    LoOfVal(m, src0);
    LoOfVal(m, src1);
    AddMod(Val(m, src0), Val(m, src1), W32);
  }

  /** A native 64-bit add, into either kind of destination. */
  lemma NativeAddSem(dst: Opnd, src0: Opnd, src1: Opnd, m: Regs)
    ensures dst.QW? ==> Pair(Exec([Add64(dst, src0, src1)], m), dst.q) == (Val(m, src0) + Val(m, src1)) % W64
    ensures dst.DW? ==> Get(Exec([Add64(dst, src0, src1)], m), Dw(dst.d)) == (Val(m, src0) + Val(m, src1)) % W32
  {
    Exec1(Add64(dst, src0, src1), m);
    ModMod(Val(m, src0) + Val(m, src1));
  }

  /** A 32-bit add of the low halves. */
  lemma LowAddSem(d: nat, src0: Opnd, src1: Opnd, m: Regs)
    ensures Get(Exec([Add(Dw(d), R(LoOf(src0)), R(LoOf(src1)))], m), Dw(d)) == (Val(m, src0) + Val(m, src1)) % W32
  {
    Exec1(Add(Dw(d), R(LoOf(src0)), R(LoOf(src1))), m);
    LoOfVal(m, src0);
    LoOfVal(m, src1);
    AddMod(Val(m, src0), Val(m, src1), W32);
  }

  /**
   * `eaddInternal` without a usable flag register. With the `add32`
   * shortcut a 64-bit destination gets the shortcut; without 64-bit
   * emulation one native add is emitted; a 32-bit destination adds the low
   * halves; otherwise the slow path adds with carry, which does not support
   * two signed 32-bit sources.
   */
  method EaddInternal(st: Strategy, dst: Opnd, src0: Opnd, src1: Opnd,
                      dstLoOffset: nat, execSize: nat, unitStride: bool) returns (res: Result<seq<Op>>)
    ensures res.Err? <==> dst.QW? && !st.emulate64Add32 && st.emulate64 && Signed32(src0) && Signed32(src1)
    ensures res.Ok? && dst.QW? && !st.emulate64Add32 ==>
              forall m: Regs :: Pair(Exec(res.value, m), dst.q) == (Val(m, src0) + Val(m, src1)) % W64
    ensures res.Ok? && dst.DW? ==>
              forall m: Regs :: Get(Exec(res.value, m), Dw(dst.d)) == (Val(m, src0) + Val(m, src1)) % W32
    ensures dst.QW? && st.emulate64Add32 ==>
              res.Ok? && forall m: Regs :: Pair(Exec(res.value, m), dst.q) == Add32Sum(m, dst, src0, src1)
    ensures res.Ok? && dst.QW? && (st.emulate64Add32 || st.emulate64) ==> All32(res.value)
    ensures res.Ok? && !st.emulate64 && !(dst.QW? && st.emulate64Add32) ==> |res.value| == 1
  {
    if dst.QW? && st.emulate64Add32 {
      var code := Add32Code(dst, src0, src1);
      forall m: Regs
        ensures Pair(Exec(code, m), dst.q) == Add32Sum(m, dst, src0, src1)
      {
        Add32Sem(dst, src0, src1, m);
      }
      Add32State(dst, src0, src1, map[]);
      return Ok(code);
    } else if !st.emulate64 {
      var code := [Add64(dst, src0, src1)];
      forall m: Regs
        ensures dst.QW? ==> Pair(Exec(code, m), dst.q) == (Val(m, src0) + Val(m, src1)) % W64
        ensures dst.DW? ==> Get(Exec(code, m), Dw(dst.d)) == (Val(m, src0) + Val(m, src1)) % W32
      {
        NativeAddSem(dst, src0, src1, m);
      }
      return Ok(code);
    } else if dst.DW? {
      var code := [Add(Dw(dst.d), R(LoOf(src0)), R(LoOf(src1)))];
      forall m: Regs
        ensures Get(Exec(code, m), Dw(dst.d)) == (Val(m, src0) + Val(m, src1)) % W32
      {
        LowAddSem(dst.d, src0, src1, m);
      }
      return Ok(code);
    }
    if Signed32(src0) && Signed32(src1) {
      return Err("two signed 32-bit sources on the carry path");
    }
    var layout := LayoutOf(dstLoOffset, execSize, unitStride);
    var code := SlowAddCode(dst.q, src0, src1, layout);
    forall m: Regs
      ensures Pair(Exec(code, m), dst.q) == (Val(m, src0) + Val(m, src1)) % W64
    {
      SlowAddSem(dst.q, src0, src1, layout, m);
    }
    SlowAddAll32(dst.q, src0, src1, layout);
    return Ok(code);
  }
}
