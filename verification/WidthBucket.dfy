/**
 width_bucket in its two forms, over exact reals with NaN.  The equal-width form is the thresholds
 form on evenly spaced cut points.
 */
module WidthBucket {
  import opened Wrappers

  /** A float without rounding: NaN compares false with everything. */
  datatype Float = NaN | Num(r: real)

  predicate Less(a: Float, b: Float) { a.Num? && b.Num? && a.r < b.r }
  predicate AtLeast(a: Float, b: Float) { a.Num? && b.Num? && a.r >= b.r }

  function Clamp(x: int, lo: int, hi: int): int {
    if x < lo then lo else if x > hi then hi else x
  }

  /** `x.floor() as i64`; a NaN casts to 0. */
  function FloorOf(x: Float): int { if x.Num? then x.r.Floor else 0 }

  /** `(op - low) / ((high - low) / count)`. */
  function Offset(op: Float, low: Float, high: Float, count: int): Float
    requires count > 0
  {
    if op.Num? && low.Num? && high.Num? && low.r != high.r then
      Num((op.r - low.r) / ((high.r - low.r) / count as real))
    else NaN
  }

  function EqualWidthBucket(op: Float, low: Float, high: Float, count: int): int
    requires count > 0
  {
    if op.NaN? || Less(op, low) then 0
    else if AtLeast(op, high) then count + 1
    else Clamp(FloorOf(Offset(op, low, high, count)) + 1, 1, count)
  }

  /** How many thresholds the operand is not below. */
  function Reached(op: Float, thresholds: seq<Float>): nat {
    if thresholds == [] then 0
    else (if AtLeast(op, thresholds[0]) then 1 else 0) + Reached(op, thresholds[1..])
  }

  function ThresholdBucket(op: Float, thresholds: seq<Float>): int {
    if op.NaN? then 0 else Reached(op, thresholds)
  }

  // ---------- Rows ----------

  datatype BucketError = BadCount | BadBounds | BadThresholds

  /** `v as i32`: the low 32 bits, as a signed number. */
  function AsI32(v: int): int {
    var low := v % 0x1_0000_0000;
    if low < 0x8000_0000 then low else low - 0x1_0000_0000
  }

  /** A bucket comes out as it is exactly when it fits an i32; in any case its low 32 bits do. */
  lemma AsI32Exactly(v: int)
    ensures -0x8000_0000 <= AsI32(v) < 0x8000_0000 && (v - AsI32(v)) % 0x1_0000_0000 == 0
    ensures AsI32(v) == v <==> -0x8000_0000 <= v < 0x8000_0000
  {
  }

  /** One row against bounds and a count: NULL if anything is missing. */
  function RowBucket(op: Option<Float>, low: Option<Float>, high: Option<Float>, count: int): Option<int>
    requires count > 0
  {
    if op.Some? && low.Some? &&
      high.Some? then Some(AsI32(EqualWidthBucket(op.value, low.value, high.value, count))) else None
  }

  function First<T>(column: seq<Option<T>>): Option<T> {
    if column == [] then None else column[0]
  }

  /** The four argument columns have a row each for every row of the batch; bounds and count are read from the first. */
  method EqualWidthForm(operands: seq<Option<Float>>, lows: seq<Option<Float>>, highs: seq<Option<Float>>,
                        counts: seq<Option<int>>)
    returns (out: Result<seq<Option<int>>, BucketError>)
    requires |lows| == |highs| == |counts| == |operands|
    ensures out == Err(BadCount) <==> First(counts).None? || First(counts).value <= 0
    ensures out == Err(BadBounds) <==>
            First(counts).Some? && First(counts).value > 0 && First(lows).Some? && First(highs).Some? &&
            AtLeast(First(lows).value, First(highs).value) && exists i :: 0 <= i < |operands| && operands[i].Some?
    ensures out.Ok? ==> |out.value| == |operands| && First(counts).value > 0
    ensures out.Ok? ==> forall i :: 0 <= i < |operands| ==>
            out.value[i] == RowBucket(operands[i], First(lows), First(highs), First(counts).value)
  {
    if First(counts).None? { return Err(BadCount); }
    var count := First(counts).value;
    if count <= 0 { return Err(BadCount); }
    var low, high := First(lows), First(highs);
    var rows: seq<Option<int>> := [];
    for i := 0 to |operands|
      invariant |rows| == i
      invariant low.Some? && high.Some? && AtLeast(low.value, high.value) ==> forall j :: 0 <= j < i ==>
                  operands[j].None?
      invariant forall j :: 0 <= j < i ==> rows[j] == RowBucket(operands[j], low, high, count)
    {
      if operands[i].None? || lows[0].None? || highs[0].None? {
        rows := rows + [None];
      } else {
        if AtLeast(lows[0].value, highs[0].value) { return Err(BadBounds); }
        rows := rows + [Some(AsI32(EqualWidthBucket(operands[i].value, lows[0].value, highs[0].value, count)))];
      }
    }
    out := Ok(rows);
  }

  /** A cell of the thresholds column: a list whose elements may be NULL, or NULL. */
  type ListCell = Option<seq<Option<Float>>>

  /** `v.unwrap_or(NAN)`, element by element. */
  function Thresholds(elements: seq<Option<Float>>): (r: seq<Float>)
    ensures |r| == |elements|
  {
    seq(|elements|, i requires 0 <= i < |elements| => if elements[i].Some? then elements[i].value else NaN)
  }

  /** Both argument columns have a row for each row of the batch.  A list is read from a column of one row only, so
      the form answers on batches of one row and on no other. */
  method ThresholdsForm(operands: seq<Option<Float>>, lists: seq<ListCell>)
    returns (out: Result<seq<Option<int>>, BucketError>)
    requires |lists| == |operands|
    ensures out == Err(BadThresholds) <==> |operands| != 1 || lists[0].None?
    ensures out != Err(BadThresholds) ==>
            out == Ok([if operands[0].None? then None
                       else Some(AsI32(ThresholdBucket(operands[0].value, Thresholds(lists[0].value))))])
  {
    if |lists| != 1 || lists[0].None? { return Err(BadThresholds); }
    var thresholds := Thresholds(lists[0].value);
    var rows: seq<Option<int>> := [];
    for i := 0 to |operands|
      invariant |rows| == i
      invariant forall j :: 0 <= j < i ==>
                rows[j] == if operands[j].Some? then Some(AsI32(ThresholdBucket(operands[j].value, thresholds)))
                  else None
    {
      match operands[i] {
        case None => rows := rows + [None];
        case Some(op) =>
          var bucket := 0;
          if !op.NaN? {
            assert thresholds[0..] == thresholds;
            for j := 0 to |thresholds|
              invariant bucket + Reached(op, thresholds[j..]) == Reached(op, thresholds)
            {
              assert thresholds[j..][1..] == thresholds[j + 1..];
              if AtLeast(op, thresholds[j]) { bucket := bucket + 1; }
            }
          }
          rows := rows + [Some(AsI32(bucket))];
      }
    }
    assert rows == [rows[0]];
    out := Ok(rows);
  }

  /** Elements that are NULL, like NaNs, count for nothing. */
  lemma {:induction false} NullsCountNothing(op: Float, elements: seq<Option<Float>>)
    ensures Reached(op, Thresholds(elements)) == Reached(op, Thresholds(NonNull(elements)))
  {
    if elements != [] {
      var rest := elements[1..];
      assert Thresholds(elements)[1..] == Thresholds(rest);
      if elements[0].Some? {
        assert Thresholds(NonNull(elements)) == [elements[0].value] + Thresholds(NonNull(rest));
        assert Thresholds(NonNull(elements))[1..] == Thresholds(NonNull(rest));
      } else {
        assert NonNull(elements) == NonNull(rest);
      }
      NullsCountNothing(op, rest);
    }
  }

  function NonNull(elements: seq<Option<Float>>): seq<Option<Float>> {
    if elements == [] then []
    else (if elements[0].Some? then [elements[0]] else []) + NonNull(elements[1..])
  }

  // ---------- The equal-width form is the thresholds form on even cut points ----------

  function Step(low: real, high: real, n: int): real
    requires n > 0
  {
    (high - low) / n as real
  }

  /** The n + 1 points low, low + step, ..., high. */
  function CutPoints(low: real, high: real, n: int): seq<Float>
    requires n > 0
  {
    seq(n + 1, k requires 0 <= k < n + 1 => Num(low + k as real * Step(low, high, n)))
  }

  lemma {:induction false} ReachedPrefix(op: Float, thresholds: seq<Float>, m: nat)
    requires m <= |thresholds|
    requires forall k :: 0 <= k < |thresholds| ==> (AtLeast(op, thresholds[k]) <==> k < m)
    ensures Reached(op, thresholds) == m
  {
    if thresholds != [] { ReachedPrefix(op, thresholds[1..], if m == 0 then 0 else m - 1); }
  }

  lemma StepPositive(low: real, high: real, n: int)
    requires low < high && n > 0
    ensures Step(low, high, n) > 0.0 && n as real * Step(low, high, n) == high - low
  {
  }

  lemma Scale(step: real, x: real, y: real)
    requires step > 0.0
    ensures x <= y <==> x * step <= y * step
  {
    if x < y { assert (y - x) * step > 0.0; }
    if y < x { assert (x - y) * step > 0.0; }
  }

  /** A cut point is reached exactly when its index is at most the offset, rounded down. */
  lemma CutReached(r: real, low: real, high: real, n: int, k: int)
    requires low < high && n > 0
    ensures var q := (r - low) / Step(low, high, n);
            (r >= low + k as real * Step(low, high, n) <==> k <= q.Floor) && r - low == q * Step(low, high, n)
  {
    StepPositive(low, high, n);
    var step := Step(low, high, n);
    var q := (r - low) / step;
    assert q * step == r - low;
    Scale(step, k as real, q);
  }

  /** Inside the bounds the rounded offset is a bucket index already: the clamp never acts. */
  lemma ClampIdle(op: Float, low: real, high: real, n: int)
    requires low < high && n > 0 && op.Num? && low <= op.r < high
    ensures 0 <= FloorOf(Offset(op, Num(low), Num(high), n)) < n
    ensures EqualWidthBucket(op, Num(low), Num(high), n) == FloorOf(Offset(op, Num(low), Num(high), n)) + 1
  {
    StepPositive(low, high, n);
    CutReached(op.r, low, high, n, 0);
    CutReached(op.r, low, high, n, n);
  }

  /** The bucket number counts the cut points reached. */
  lemma BucketCounts(r: real, low: real, high: real, n: int, k: int)
    requires low < high && n > 0 && 0 <= k <= n
    ensures r >= low + k as real * Step(low, high, n) <==> k < EqualWidthBucket(Num(r), Num(low), Num(high), n)
    ensures 0 <= EqualWidthBucket(Num(r), Num(low), Num(high), n) <= n + 1
  {
    StepPositive(low, high, n);
    CutReached(r, low, high, n, k);
    CutReached(r, low, high, n, 0);
    CutReached(r, low, high, n, n);
    if low <= r < high { ClampIdle(Num(r), low, high, n); }
  }

  /** The equal-width bucket is the thresholds bucket over the cut points, for every operand. */
  lemma EqualWidthIsThresholds(op: Float, low: real, high: real, n: int)
    requires low < high && n > 0
    ensures EqualWidthBucket(op, Num(low), Num(high), n) == ThresholdBucket(op, CutPoints(low, high, n))
  {
    if op.Num? {
      var cuts, b := CutPoints(low, high, n), EqualWidthBucket(op, Num(low), Num(high), n);
      BucketCounts(op.r, low, high, n, 0);
      forall k | 0 <= k < |cuts| ensures AtLeast(op, cuts[k]) <==> k < b { BucketCounts(op.r, low, high, n, k); }
      ReachedPrefix(op, cuts, b);
    }
  }

  /** Bucket b of 1..n is exactly the b-th half-open interval, 0 what is below (or NaN), n + 1 what is not below
      high. */
  lemma BucketIsInterval(op: Float, low: real, high: real, n: int, b: int)
    requires low < high && n > 0
    ensures EqualWidthBucket(op, Num(low), Num(high), n) == b <==>
            (b == 0 && (op.NaN? || op.r < low)) || (b == n + 1 && op.Num? && high <= op.r) ||
            (1 <= b <= n && op.Num? &&
                low + (b - 1) as real * Step(low, high, n) <= op.r < low + b as real * Step(low, high, n))
  {
    if op.Num? {
      StepPositive(low, high, n);
      CutReached(op.r, low, high, n, b - 1);
      CutReached(op.r, low, high, n, b);
      CutReached(op.r, low, high, n, 0);
      CutReached(op.r, low, high, n, n);
      if low <= op.r < high { ClampIdle(op, low, high, n); }
    }
  }

  /** Larger operands never land in smaller buckets. */
  lemma BucketMonotone(r: real, r': real, low: real, high: real, n: int)
    requires low < high && n > 0 && r <= r'
    ensures 0 <= EqualWidthBucket(Num(r), Num(low), Num(high), n) <= EqualWidthBucket(Num(r'), Num(low), Num(high),
            n) <= n + 1
  {
    var b, b' := EqualWidthBucket(Num(r), Num(low), Num(high), n), EqualWidthBucket(Num(r'), Num(low), Num(high), n);
    BucketCounts(r, low, high, n, 0);
    BucketCounts(r', low, high, n, 0);
    if b' < b {
      BucketCounts(r, low, high, n, b');
      BucketCounts(r', low, high, n, b');
    }
  }

  // ---------- Bounds and counts that vary from row to row ----------

  function BucketOf(r: real, low: real, high: real, n: int): (b: int)
    requires low < high && n > 0
    ensures 0 <= b <= n + 1 && (b == 0 <==> r < low) && (b == n + 1 <==> high <= r)
  {
    BucketCounts(r, low, high, n, 0);
    BucketIsInterval(Num(r), low, high, n, 0);
    BucketIsInterval(Num(r), low, high, n, n + 1);
    EqualWidthBucket(Num(r), Num(low), Num(high), n)
  }

  /** A row gets the bucket of its own bounds and count, whatever its operand, exactly when they are those of the
      first row. */
  lemma OwnBoundsExactly(low: real, high: real, n: int, low': real, high': real, n': int)
    requires low < high && low' < high' && n > 0 && n' > 0
    ensures (forall r :: BucketOf(r, low, high, n) == BucketOf(r, low', high', n')) <==>
            low == low' && high == high' && n == n'
  {
    if forall r :: BucketOf(r, low, high, n) == BucketOf(r, low', high', n') {
      hide BucketOf;
      assert BucketOf(low, low, high, n) > 0 && BucketOf(low', low', high', n') > 0;
      assert BucketOf(high, low, high, n) == n + 1 && BucketOf(high', low', high', n') == n' + 1;
      var top := if high < high' then high' else high;
      assert BucketOf(top, low, high, n) == n + 1 && BucketOf(top, low', high', n') == n' + 1;
    }
  }
}
