/** Vectors of STRIDE int16 lanes and their squared Euclidean distance
    (internal/index/refs.go, dist_scalar.go, dist_simd.go). */
module Distance {
  import opened Numbers

  const STRIDE: nat := 16
  const RAW_DIMS: nat := 14

  /** A vector of int16 lanes; lanes are kept as int so that Go's widening before
      every subtraction is plain arithmetic. */
  type Row = r: seq<int> | |r| == STRIDE && forall i :: 0 <= i < |r| ==> -0x8000 <= r[i] < 0x8000
    witness seq(STRIDE, _ => 0)

  function Sq(x: int): int {
    x * x
  }

  /** Sum of the squared differences in the first n lanes. */
  function SqSum(q: Row, r: Row, n: nat): int
    requires n <= STRIDE
  {
    if n == 0 then 0 else SqSum(q, r, n - 1) + Sq(q[n - 1] - r[n - 1])
  }

  lemma NoLanes(q: Row, r: Row)
    ensures SqSum(q, r, 0) == 0
  {
  }

  function SqDist(q: Row, r: Row): int {
    SqSum(q, r, STRIDE)
  }

  lemma SquareMono(a: int, b: int)
    requires 0 <= a <= b
    ensures Sq(a) <= Sq(b)
  {
    assert b * b - a * a == (b - a) * (b + a);
  }

  lemma SquareBound(x: int)
    requires -0xFFFF <= x <= 0xFFFF
    ensures 0 <= Sq(x) < 0x1_0000_0000
  {
    if x < 0 {
      SquareMono(-x, 0xFFFF);
    } else {
      SquareMono(x, 0xFFFF);
    }
  }

  lemma {:induction false} SqSumBound(q: Row, r: Row, n: nat)
    requires n <= STRIDE
    ensures 0 <= SqSum(q, r, n) <= n * 0x1_0000_0000
  {
    if n > 0 {
      SqSumBound(q, r, n - 1);
      SquareBound(q[n - 1] - r[n - 1]);
    }
  }

  /** No pair of vectors is as far apart as the initial slot distance 1 << 62,
      nor does an int64 sum of squares wrap. */
  lemma DistanceBound(q: Row, r: Row)
    ensures 0 <= SqDist(q, r) < 0x4000_0000_0000_0000
  {
    SqSumBound(q, r, STRIDE);
  }

  lemma {:induction false} SqSumMono(q: Row, r: Row, m: nat, n: nat)
    requires m <= n <= STRIDE
    ensures SqSum(q, r, m) <= SqSum(q, r, n)
  {
    if m < n {
      SqSumMono(q, r, m, n - 1);
      SquareBound(q[n - 1] - r[n - 1]);
    }
  }

  /** Equal lanes contribute nothing. */
  lemma {:induction false} SqSumSkip(q: Row, r: Row, m: nat, n: nat)
    requires m <= n <= STRIDE
    requires forall i :: m <= i < n ==> q[i] == r[i]
    ensures SqSum(q, r, m) == SqSum(q, r, n)
  {
    if m < n {
      SqSumSkip(q, r, m, n - 1);
    }
  }

  /** One lane alone is a lower bound of the distance. */
  lemma LaneBound(q: Row, r: Row, d: nat)
    requires d < STRIDE
    ensures Sq(q[d] - r[d]) <= SqDist(q, r)
  {
    SqSumMono(q, r, d + 1, STRIDE);
    SqSumBound(q, r, d);
  }

  method SqDistScalar(q: Row, r: Row) returns (s: int64)
    ensures s == SqDist(q, r)
  {
    s := 0;
    for i := 0 to STRIDE
      invariant s == SqSum(q, r, i)
    {
      var d := q[i] - r[i];
      SquareBound(d);
      SqSumBound(q, r, i);
      s := s + d * d;
    }
  }

  // ---- SIMD kernel -------------------------------------------------------

  /** Lane i of the wrapping int16 subtraction. */
  function Lane(q: Row, r: Row, i: nat): int
    requires i < STRIDE
  {
    Wrap16(q[i] - r[i])
  }

  /** Lane j of the pairwise dot product: two products added in int32. */
  function PairDot(q: Row, r: Row, j: nat): int32
    requires j < 8
  {
    Wrap32(Lane(q, r, 2 * j) * Lane(q, r, 2 * j) + Lane(q, r, 2 * j + 1) * Lane(q, r, 2 * j + 1))
  }

  /** Sum of the first n results. */
  function DotSum(q: Row, r: Row, n: nat): int
    requires n <= 8
  {
    if n == 0 then 0 else DotSum(q, r, n - 1) + PairDot(q, r, n - 1)
  }

  function SqDistSimd(q: Row, r: Row): int {
    DotSum(q, r, 8)
  }

  function Magnitude(x: int): nat {
    if x < 0 then -x else x
  }

  /** A pair of lane differences the kernel gets right: no magnitude above 1 << 15,
      and not both equal to it. */
  predicate PairFits(q: Row, r: Row, j: nat)
    requires j < 8
  {
    var a, b := Magnitude(q[2 * j] - r[2 * j]), Magnitude(q[2 * j + 1] - r[2 * j + 1]);
    a <= 0x8000 && b <= 0x8000 && !(a == 0x8000 && b == 0x8000)
  }

  lemma WrappedSquare(x: int)
    requires -0xFFFF <= x <= 0xFFFF
    ensures 0 <= Sq(Wrap16(x)) <= 0x4000_0000
    ensures Magnitude(x) <= 0x8000 ==> Sq(Wrap16(x)) == Sq(x)
    ensures Magnitude(x) < 0x8000 ==> Sq(Wrap16(x)) < 0x4000_0000
    ensures Magnitude(x) == 0x8000 ==> Sq(Wrap16(x)) == 0x4000_0000
    ensures Magnitude(x) > 0x8000 ==> Sq(Wrap16(x)) < 0x4000_0000 < Sq(x)
  {
    var w: int := Wrap16(x);
    assert Sq(-x) == Sq(x) && Sq(-w) == Sq(w);
    if Magnitude(w) < 0x8000 {
      SquareMono(Magnitude(w), 0x7FFF);
    }
    if Magnitude(x) > 0x8000 {
      SquareMono(0x8001, Magnitude(x));
    }
  }

  /** The true share of a pair of lanes. */
  function PairSq(q: Row, r: Row, j: nat): int
    requires j < 8
  {
    Sq(q[2 * j] - r[2 * j]) + Sq(q[2 * j + 1] - r[2 * j + 1])
  }

  lemma PairShare(q: Row, r: Row, j: nat)
    requires j < 8
    ensures SqSum(q, r, 2 * j + 2) == SqSum(q, r, 2 * j) + PairSq(q, r, j)
  {
    hide Sq;
    assert SqSum(q, r, 2 * j + 1) == SqSum(q, r, 2 * j) + Sq(q[2 * j] - r[2 * j]);
  }

  lemma PairExact(q: Row, r: Row, j: nat)
    requires j < 8
    ensures PairDot(q, r, j) <= PairSq(q, r, j)
    ensures PairDot(q, r, j) == PairSq(q, r, j) <==> PairFits(q, r, j)
  {
    hide Wrap16;
    var a, b := q[2 * j] - r[2 * j], q[2 * j + 1] - r[2 * j + 1];
    WrappedSquare(a);
    WrappedSquare(b);
    SquareBound(a);
    SquareBound(b);
    assert PairDot(q, r, j) == Wrap32(Sq(Wrap16(a)) + Sq(Wrap16(b)));
  }

  lemma {:induction false} DotSumExact(q: Row, r: Row, n: nat)
    requires n <= 8
    ensures DotSum(q, r, n) <= SqSum(q, r, 2 * n)
    ensures DotSum(q, r, n) == SqSum(q, r, 2 * n) <==> forall j: nat | j < n :: PairFits(q, r, j)
  {
    hide PairDot, PairFits, PairSq, SqSum;
    if n > 0 {
      DotSumExact(q, r, n - 1);
      PairExact(q, r, n - 1);
      PairShare(q, r, n - 1);
    } else {
      NoLanes(q, r);
    }
  }

  /** A row that the SIMD kernel measures right from q. */
  predicate Fits(q: Row, r: Row) {
    forall j: nat | j < 8 :: PairFits(q, r, j)
  }

  /** The SIMD kernel never over-estimates, and agrees with the scalar distance
      exactly when every pair of lane differences fits. */
  lemma SimdAgrees(q: Row, r: Row)
    ensures SqDistSimd(q, r) <= SqDist(q, r)
    ensures SqDistSimd(q, r) == SqDist(q, r) <==> Fits(q, r)
  {
    hide DotSum, SqSum, PairFits;
    DotSumExact(q, r, 8);
  }

  /** In particular on the quantized domain [-10000, 10000]. */
  lemma SimdAgreesOnQuantized(q: Row, r: Row)
    requires Quantized(q) && Quantized(r)
    ensures SqDistSimd(q, r) == SqDist(q, r)
  {
    SimdAgrees(q, r);
  }

  /** The eight int32 results of the pairwise dot product of the difference with itself. */
  method DotPairs(q: Row, r: Row) returns (out: array<int>)
    ensures fresh(out) && out.Length == 8 && forall j: nat :: j < 8 ==> out[j] == PairDot(q, r, j)
  {
    hide Wrap16, Wrap32;
    out := new int[8];
    for i := 0 to 8
      invariant forall j: nat :: j < i ==> out[j] == PairDot(q, r, j)
    {
      var a: int, b: int := Wrap16(q[2 * i] - r[2 * i]), Wrap16(q[2 * i + 1] - r[2 * i + 1]);
      var dot := Wrap32(a * a + b * b);
      assert dot == PairDot(q, r, i);
      hide PairDot;
      out[i] := dot;
    }
  }

  lemma EightDots(q: Row, r: Row)
    ensures SqDistSimd(q, r) ==
            PairDot(q, r, 0) + PairDot(q, r, 1) + PairDot(q, r, 2) + PairDot(q, r, 3) +
            PairDot(q, r, 4) + PairDot(q, r, 5) + PairDot(q, r, 6) + PairDot(q, r, 7)
  {
    hide PairDot;
    assert DotSum(q, r, 1) == PairDot(q, r, 0);
    assert DotSum(q, r, 2) == PairDot(q, r, 0) + PairDot(q, r, 1);
    assert DotSum(q, r, 4) == DotSum(q, r, 2) + PairDot(q, r, 2) + PairDot(q, r, 3);
    assert DotSum(q, r, 6) == DotSum(q, r, 4) + PairDot(q, r, 4) + PairDot(q, r, 5);
    assert DotSum(q, r, 8) == DotSum(q, r, 6) + PairDot(q, r, 6) + PairDot(q, r, 7);
  }

  method SqDistVector(q: Row, r: Row) returns (s: int64)
    ensures s == SqDistSimd(q, r)
  {
    hide PairDot;
    var out := DotPairs(q, r);
    assert forall j: nat :: j < 8 ==> -0x8000_0000 <= out[j] < 0x8000_0000;
    EightDots(q, r);
    s := out[0] + out[1] + out[2] + out[3] + out[4] + out[5] + out[6] + out[7];
  }

  // ---- The kernel a build uses -------------------------------------------

  /** Which of the two files a build tag selects. */
  datatype Kernel = Plain | Simd

  function KernelDist(k: Kernel, q: Row, r: Row): (d: int)
    ensures k.Plain? ==> d == SqDist(q, r)
    ensures d <= SqDist(q, r)
  {
    if k.Plain? then SqDist(q, r) else
      SimdAgrees(q, r);
      SqDistSimd(q, r)
  }

  method Measure(k: Kernel, q: Row, r: Row) returns (s: int64)
    ensures s == KernelDist(k, q, r)
  {
    if k.Plain? {
      s := SqDistScalar(q, r);
    } else {
      s := SqDistVector(q, r);
    }
  }

  /** The kernel measures every row right. */
  predicate Agrees(k: Kernel, q: Row, rows: seq<Row>) {
    k.Plain? || forall i :: 0 <= i < |rows| ==> Fits(q, rows[i])
  }

  lemma AgreesOn(k: Kernel, q: Row, rows: seq<Row>, i: nat)
    requires i < |rows| && Agrees(k, q, rows)
    ensures KernelDist(k, q, rows[i]) == SqDist(q, rows[i])
  {
    SimdAgrees(q, rows[i]);
  }

  /** What quantizing a vector yields. */
  predicate Quantized(v: Row) {
    forall i :: 0 <= i < STRIDE ==> -10000 <= v[i] <= 10000
  }

  /** A row that the SIMD kernel measures right from every quantized query. */
  predicate KernelSafe(r: Row) {
    forall j: nat | j < 8 :: PairSafe(r[2 * j], r[2 * j + 1])
  }

  predicate PairSafe(a: int, b: int) {
    Magnitude(a) <= 22768 && Magnitude(b) <= 22768 && !(Magnitude(a) == 22768 && Magnitude(b) == 22768)
  }

  /** The quantized query farthest from a row in every lane. */
  function Opposite(r: Row): (q: Row)
    ensures Quantized(q)
    ensures forall i :: 0 <= i < STRIDE ==> Magnitude(q[i] - r[i]) == Magnitude(r[i]) + 10000
  {
    seq(STRIDE, i requires 0 <= i < STRIDE => if r[i] < 0 then 10000 else -10000)
  }

  /** The exact condition on a row for every quantized query. */
  lemma KernelSafeIff(r: Row)
    ensures KernelSafe(r) <==> forall q: Row | Quantized(q) :: SqDistSimd(q, r) == SqDist(q, r)
  {
    if KernelSafe(r) {
      forall q: Row | Quantized(q)
        ensures SqDistSimd(q, r) == SqDist(q, r)
      {
        SafeFits(q, r);
        hide SqDistSimd, SqDist;
        SimdAgrees(q, r);
      }
    } else {
      var j: nat :| j < 8 && !PairSafe(r[2 * j], r[2 * j + 1]);
      assert !PairFits(Opposite(r), r, j);
      hide SqDistSimd, SqDist, PairFits;
      SimdAgrees(Opposite(r), r);
    }
  }

  lemma SafeFits(q: Row, r: Row)
    requires Quantized(q) && KernelSafe(r)
    ensures Fits(q, r)
  {
    forall j: nat | j < 8
      ensures PairFits(q, r, j)
    {
      assert PairSafe(r[2 * j], r[2 * j + 1]);
    }
  }

  lemma QuantizedIsSafe(r: Row)
    requires Quantized(r)
    ensures KernelSafe(r)
  {
  }

  /** Rows nearer than 1 << 30 are measured right. */
  lemma NearFits(q: Row, r: Row)
    requires SqDist(q, r) < 0x4000_0000
    ensures Fits(q, r)
  {
    hide SqDist;
    forall j: nat | j < 8
      ensures PairFits(q, r, j)
    {
      NearLane(q, r, 2 * j);
      NearLane(q, r, 2 * j + 1);
    }
  }

  lemma NearLane(q: Row, r: Row, d: nat)
    requires d < STRIDE && SqDist(q, r) < 0x4000_0000
    ensures Magnitude(q[d] - r[d]) < 0x8000
  {
    LaneBound(q, r, d);
    var x := q[d] - r[d];
    assert Sq(-x) == Sq(x);
    if Magnitude(x) >= 0x8000 {
      SquareMono(0x8000, Magnitude(x));
    }
  }
}
