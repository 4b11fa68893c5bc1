/**
 * Shared vocabulary of the model: error results, the C integer helpers the
 * library uses (`div_up`, truncating division) and first-seen deduplication.
 */
module Common {

  /** A value, or the reason the library would stop (a `stub()` or a thrown error). */
  datatype Result<T> = Ok(value: T) | Err(reason: string)

  datatype Option<T> = None | Some(value: T)

  /** An action that either completes or stops the generator. */
  datatype Outcome = Done | Fail(reason: string)

  /** 2 to the power `n`. */
  function Pow2(n: nat): (r: nat)
    ensures r >= 1
  {
    if n == 0 then 1 else 2 * Pow2(n - 1)
  }

  /**
   * `utils::div_up(a, b)`, written in C as `(a + b - 1) / b`; every call
   * site in the model passes a non-negative dividend and a positive divisor,
   * where it is the ceiling of a / b.
   */
  function DivUp(a: nat, b: nat): (r: nat)
    requires b > 0
    ensures r * b >= a
    ensures (r - 1) * b < a
  {
    var q := (a + b - 1) / b;
    assert a + b - 1 == q * b + (a + b - 1) % b;
    q
  }

  /** C integer division: the quotient is truncated toward zero. */
  function TDiv(a: int, b: int): (r: int)
    requires b != 0
    ensures a >= 0 && b > 0 ==> r == a / b
    ensures (a >= 0) == (b > 0) || a == 0 ==> r >= 0
    ensures (a >= 0) != (b > 0) ==> r <= 0
  {
    var q := Abs(a) / Abs(b);
    if (a >= 0) == (b > 0) then q else -q
  }

  function Abs(x: int): (r: nat)
    ensures r == x || r == -x
  {
    if x < 0 then -x else x
  }

  function Min(a: int, b: int): (r: int)
    ensures r <= a && r <= b && (r == a || r == b)
  {
    if a < b then a else b
  }

  function Max(a: int, b: int): (r: int)
    ensures r >= a && r >= b && (r == a || r == b)
  {
    if a < b then b else a
  }

  /**
   * The distinct elements of `s` in the order of their first occurrence:
   * the shape of a `std::set` lookup guarding an append.
   */
  function Dedup<T(==,!new)>(s: seq<T>): (r: seq<T>)
    ensures forall x :: x in r <==> x in s
    ensures forall i, j :: 0 <= i < j < |r| ==> r[i] != r[j]
    ensures |r| <= |s|
  {
    if s == [] then []
    else
      var d := Dedup(s[..|s| - 1]);
      assert forall x :: x in s <==> x in s[..|s| - 1] || x == s[|s| - 1];
      if s[|s| - 1] in d then d else d + [s[|s| - 1]]
  }

  /** The elements of `s`, as a set. */
  function Elems<T>(s: seq<T>): set<T>
  {
    if s == [] then {} else Elems(s[..|s| - 1]) + {s[|s| - 1]}
  }

  lemma {:induction false} ElemsMem<T>(s: seq<T>, x: T)
    ensures x in Elems(s) <==> x in s
  {
    if s != [] {
      ElemsMem(s[..|s| - 1], x);
      assert x in s <==> x in s[..|s| - 1] || x == s[|s| - 1];
    }
  }

  lemma ElemsSnoc<T>(s: seq<T>, x: T)
    ensures Elems(s + [x]) == Elems(s) + {x}
  {
    assert (s + [x])[..|s|] == s;
  }

  /** Position of `x` in a duplicate-free sequence. */
  function IndexOf<T(==)>(s: seq<T>, x: T): (i: nat)
    requires x in s
    ensures i < |s| && s[i] == x
    ensures forall j :: 0 <= j < i ==> s[j] != x
  {
    if s[0] == x then 0 else 1 + IndexOf(s[1..], x)
  }

  /** Appending a new element extends the deduplicated sequence by it. */
  lemma DedupSnoc<T(!new)>(s: seq<T>, x: T)
    ensures Dedup(s + [x]) == if x in s then Dedup(s) else Dedup(s) + [x]
  {
    assert (s + [x])[..|s + [x]| - 1] == s;
  }

  lemma MulAtLeast(a: int, c: int)
    requires a > 0 && c >= 1
    ensures a * c >= a
  {
  }

  /** Multiplication by a non-negative factor is monotone. */
  lemma MulLe(x: int, y: int, c: int)
    requires x <= y && c >= 0
    ensures x * c <= y * c
  {
    assert y * c - x * c == (y - x) * c;
  }

  /** `(a * b) / a == b` for a positive `a`. */
  lemma MulDiv(a: int, b: int)
    requires a > 0
    ensures (a * b) / a == b
  {
    var q, r := (a * b) / a, (a * b) % a;
    assert a * b == a * q + r;
    if q < b {
      MulAtLeast(a, b - q);
    } else if q > b {
      MulAtLeast(a, q - b);
    }
  }

  /** Euclidean division splits `x` into quotient and remainder. */
  lemma DivModSplit(x: int, w: int)
    requires w > 0
    ensures x == (x / w) * w + x % w && 0 <= x % w < w
  {
  }

  lemma MulSucc(q: int, w: int)
    ensures (q + 1) * w == q * w + w
  {
  }

  /** Quotient and remainder of `q * w + r` for a digit `r` of base `w`. */
  lemma DivModOf(q: int, r: int, w: int)
    requires w > 0 && 0 <= r < w
    ensures (q * w + r) / w == q && (q * w + r) % w == r
  {
    var n := q * w + r;
    var d, m := n / w, n % w;
    assert n == d * w + m;
    assert (q - d) * w == m - r;
    if q - d >= 1 {
      MulAtLeast(w, q - d);
    } else if q - d <= -1 {
      MulAtLeast(w, d - q);
    }
  }

  /** Adding one element grows a finite set by one exactly when the element is new. */
  lemma CardAddOne<T>(s: set<T>, x: T)
    ensures |s + {x}| == if x in s then |s| else |s| + 1
  {
    if x in s {
      assert s + {x} == s;
    } else {
      assert (s + {x}) - {x} == s;
    }
  }

  /** Regrouping of four concatenated sequences. */
  lemma AppendAssoc3<T>(a: seq<T>, b: seq<T>, c: seq<T>, d: seq<T>)
    ensures ((a + b) + c) + d == a + ((b + c) + d)
  {
  }

  lemma AppendAssoc<T>(a: seq<T>, b: seq<T>, c: seq<T>)
    ensures (a + b) + c == a + (b + c)
  {
  }

  /** A two-digit number in base `w` with a leading digit below `n` is below `n * w`. */
  lemma DigitBound(q: int, r: int, w: int, n: int)
    requires 0 <= q < n && 0 <= r < w
    ensures 0 <= q * w + r < n * w
  {
    MulLe(0, q, w);
    MulLe(q + 1, n, w);
    assert (q + 1) * w == q * w + w;
  }

  /** The digits of a number in base `w` are unique. */
  lemma DigitsEq(q1: int, r1: int, q2: int, r2: int, w: int)
    requires w > 0 && 0 <= r1 < w && 0 <= r2 < w && q1 * w + r1 == q2 * w + r2
    ensures q1 == q2 && r1 == r2
  {
    DivModOf(q1, r1, w);
    DivModOf(q2, r2, w);
  }
}
