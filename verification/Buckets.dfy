/** The arithmetic of time buckets: the rational grid of the in-memory downsampling
    (internal/agent/downsample.go) against the whole-second grid of the grouped queries
    (internal/agent/socket.go, store_queries.go). Real numbers stand for float64, without
    its rounding. */
module Buckets {
  /** Go's conversion from float64 to an integer type drops the fraction. */
  function Trunc(x: real): int {
    if x >= 0.0 then x.Floor else -(-x).Floor
  }

  function BucketDur(n: int, start: int, end: int): real
    requires n > 0
  {
    (end - start) as real / n as real
  }

  /** The bucket a timestamp falls in, clamped to the range. */
  function BucketIndex(n: int, start: int, end: int, ts: int): (i: int)
    requires n > 0 && start < end
    ensures 0 <= i < n
  {
    DurPositive(n, start, end);
    var i := Trunc((ts - start) as real / BucketDur(n, start, end));
    if i < 0 then 0 else if i >= n then n - 1 else i
  }

  function BucketTime(n: int, start: int, end: int, i: int): int
    requires n > 0
  {
    start + Trunc((i + 1) as real * BucketDur(n, start, end))
  }

  /** The bucket width of the grouped query, in whole seconds. */
  function GroupDur(n: int, start: int, end: int): (d: int)
    requires n > 0 && start < end
    ensures d >= 1
  {
    var d := (end - start) / n;
    if d <= 0 then 1 else d
  }

  /** The timestamp that the grouped query gives the group of a row. */
  function GroupTime(start: int, d: int, ts: int): int
    requires d >= 1
  {
    start + (ts - start) / d * d
  }

  lemma DurPositive(n: int, start: int, end: int)
    requires n > 0
    ensures BucketDur(n, start, end) > 0.0 <==> start < end
  {}

  lemma QuotientBounds(a: int, b: int)
    requires b > 0
    ensures a / b * b <= a < (a / b + 1) * b
  {}

  lemma CastProduct(a: int, b: int)
    ensures (a * b) as real == a as real * b as real
  {}

  /** A real between two neighbouring whole multiples has the lower one as its floor. */
  lemma FloorBetween(x: real, q: int, b: real)
    requires b > 0.0 && q as real * b <= x * b < (q + 1) as real * b
    ensures x.Floor == q
  {}

  lemma FloorFromProduct(x: real, c: int, b: int)
    requires b > 0 && x * b as real == c as real
    ensures x.Floor == c / b
  {
    var q := c / b;
    assert q as real * b as real <= c as real < (q + 1) as real * b as real by {
      QuotientBounds(c, b);
      CastProduct(q, b);
      CastProduct(q + 1, b);
    }
    FloorBetween(x, q, b as real);
  }

  /** Dividing by the rational bucket width is the same as the whole-number quotient. */
  lemma FloorIsQuotient(a: int, b: int, n: int)
    requires b > 0 && n > 0
    ensures (b as real / n as real) > 0.0
    ensures (a as real / (b as real / n as real)).Floor == a * n / b
  {
    var br, nr, ar := b as real, n as real, a as real;
    var dur := br / nr;
    assert dur * nr == br;
    DurPositive(n, 0, b);
    var x := ar / dur;
    assert x * dur == ar;
    assert x * br == ar * nr by {
      assert x * (dur * nr) == (x * dur) * nr;
    }
    CastProduct(a, n);
    FloorFromProduct(x, a * n, b);
  }

  /** The bucket of a timestamp in whole numbers. */
  lemma IndexIsQuotient(n: int, start: int, end: int, ts: int)
    requires n > 0 && start < end
    ensures BucketIndex(n, start, end, ts) ==
      if ts < start then 0
      else if (ts - start) * n / (end - start) >= n then n - 1
      else (ts - start) * n / (end - start)
  {
    DurPositive(n, start, end);
    var dur := BucketDur(n, start, end);
    if ts < start {
    } else {
      FloorIsQuotient(ts - start, end - start, n);
      ProductNonNegative(ts - start, n);
      QuotientNonNegative((ts - start) * n, end - start);
    }
  }

  lemma ProductNonNegative(a: int, b: int)
    requires a >= 0 && b >= 0
    ensures a * b >= 0
  {}

  lemma QuotientNonNegative(a: int, b: int)
    requires a >= 0 && b > 0
    ensures a / b >= 0
  {}

  lemma Cancel(x: int, y: int, b: int)
    requires b > 0 && x * b < y * b
    ensures x < y
  {}

  lemma QuotientMonotone(a: int, c: int, b: int)
    requires b > 0 && a <= c
    ensures a / b <= c / b
  {
    QuotientBounds(a, b);
    QuotientBounds(c, b);
    Cancel(a / b, c / b + 1, b);
  }

  lemma QuotientStep(a: int, b: int)
    requires b > 0
    ensures (a - b) / b == a / b - 1
  {
    QuotientBounds(a, b);
    QuotientBounds(a - b, b);
    Cancel((a - b) / b, a / b, b);
    Cancel(a / b - 1, (a - b) / b + 1, b);
  }

  lemma ProductMonotone(x: int, y: int, n: int)
    requires x <= y && n >= 0
    ensures x * n <= y * n
  {}

  /** Moving down by less than a group moves the quotient down by at most one. */
  lemma QuotientShift(a: int, c: int, n: int, b: int, d: int)
    requires b > 0 && n > 0 && a - d < c <= a && d * n <= b
    ensures a * n / b - 1 <= c * n / b <= a * n / b
  {
    ProductMonotone(c, a, n);
    QuotientMonotone(c * n, a * n, b);
    assert a * n - b <= c * n by {
      ProductMonotone(a - d, c, n);
      assert (a - d) * n == a * n - d * n;
    }
    QuotientMonotone(a * n - b, c * n, b);
    QuotientStep(a * n, b);
  }

  /** A group is no wider than a bucket, or both grids are whole seconds. */
  lemma GroupFitsBucket(n: int, start: int, end: int)
    requires n > 0 && start < end
    ensures GroupDur(n, start, end) * n <= end - start || GroupDur(n, start, end) == 1
  {}

  /** The label of a bucket in whole numbers. */
  lemma LabelIsQuotient(n: int, start: int, end: int, i: int)
    requires n > 0 && start < end && i >= -1
    ensures BucketTime(n, start, end, i) == start + (i + 1) * (end - start) / n
  {
    var b, x := end - start, (i + 1) as real * BucketDur(n, start, end);
    assert x * n as real == ((i + 1) * b) as real by {
      assert BucketDur(n, start, end) * n as real == b as real;
      assert x * n as real == (i + 1) as real * (BucketDur(n, start, end) * n as real);
      CastProduct(i + 1, b);
    }
    FloorFromProduct(x, (i + 1) * b, n);
    ProductNonNegative(i + 1, b);
    QuotientNonNegative((i + 1) * b, n);
    assert x.Floor >= 0 && x >= x.Floor as real;
  }

  lemma QuotientOfMultiple(a: int, n: int)
    requires n > 0
    ensures a * n / n == a
  {
    QuotientBounds(a * n, n);
    Cancel(a, a * n / n + 1, n);
    Cancel(a * n / n, a + 1, n);
  }

  /** The label of a point's bucket is the first label not before the point; the last label is
      the end of the range. */
  lemma LabelsCoverTheirPoints(n: int, start: int, end: int, ts: int)
    requires n > 0 && start < end && start <= ts <= end
    ensures var i := BucketIndex(n, start, end, ts);
      BucketTime(n, start, end, i - 1) <= ts <= BucketTime(n, start, end, i)
    ensures BucketTime(n, start, end, n - 1) == end
  {
    var i, a, b := BucketIndex(n, start, end, ts), ts - start, end - start;
    IndexIsQuotient(n, start, end, ts);
    LabelIsQuotient(n, start, end, i);
    LabelIsQuotient(n, start, end, i - 1);
    LabelIsQuotient(n, start, end, n - 1);
    QuotientOfMultiple(b, n);
    QuotientOfMultiple(a, n);
    QuotientBounds(a * n, b);
    assert n * b == b * n;
    ProductMonotone(a, b, n);
    ProductMonotone(i, a * n / b, b);
    QuotientMonotone(i * b, a * n, n);
    QuotientMonotone(a * n, (i + 1) * b, n);
  }

  /** The two grids never disagree by more than one bucket, and never forwards: the group of a
      row in range falls in the row's own bucket or in the one before it. */
  lemma GroupShiftsAtMostOneBucket(n: int, start: int, end: int, ts: int)
    requires n > 0 && start < end && start <= ts
    ensures var own, got :=
      BucketIndex(n, start, end, ts), BucketIndex(n, start, end, GroupTime(start, GroupDur(n, start, end), ts));
      own - 1 <= got <= own
  {
    var d := GroupDur(n, start, end);
    var grouped := GroupTime(start, d, ts);
    if grouped != ts {
      GroupFitsBucket(n, start, end);
      QuotientShift(ts - start, grouped - start, n, end - start, d);
      IndexIsQuotient(n, start, end, ts);
      IndexIsQuotient(n, start, end, grouped);
    }
  }

  /** The shift does happen: 2 buckets over [0, 5] group by 2 seconds, and a row at second 3,
      in bucket 1, is grouped at second 2, in bucket 0. */
  lemma ShiftHappens()
    ensures BucketIndex(2, 0, 5, 3) == 1 && GroupTime(0, GroupDur(2, 0, 5), 3) == 2 && BucketIndex(2, 0, 5, 2) == 0
  {
    IndexIsQuotient(2, 0, 5, 3);
    IndexIsQuotient(2, 0, 5, 2);
  }

  /** And two groups can fall in one bucket. */
  lemma GroupsShareABucket()
    ensures GroupDur(2, 0, 3) == 1 && GroupTime(0, 1, 2) == 2 && GroupTime(0, 1, 3) == 3
    ensures BucketIndex(2, 0, 3, 2) == 1 && BucketIndex(2, 0, 3, 3) == 1
  {
    IndexIsQuotient(2, 0, 3, 2);
    IndexIsQuotient(2, 0, 3, 3);
  }
}
