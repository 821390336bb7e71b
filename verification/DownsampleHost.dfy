/** Downsampling of host metrics: the grouped query, the in-memory bucketing, and the two in a
    row (internal/agent/store_queries.go, downsample.go, socket.go). */
module DownsampleHost {
  import opened Buckets

  /** Fields that no step combines by maximum in memory. */
  datatype HostRest = HostRest(cpus: int, memTotal: int, memCached: int, memFree: int,
                               swapTotal: int, swapUsed: int, uptime: real)

  datatype HostMetrics = HostMetrics(cpu: real, memPercent: real, memUsed: int,
                                     load1: real, load5: real, load15: real, rest: HostRest)

  datatype TimedHost = TimedHost(ts: int, m: HostMetrics)

  const ZERO_REST := HostRest(0, 0, 0, 0, 0, 0, 0.0)
  const ZERO_HOST := HostMetrics(0.0, 0.0, 0, 0.0, 0.0, 0.0, ZERO_REST)

  /** The fields whose peaks the history keeps. */
  datatype HostField = Cpu | MemPercent | MemUsed | Load1 | Load5 | Load15

  function Get(f: HostField, m: HostMetrics): real {
    match f
    case Cpu => m.cpu
    case MemPercent => m.memPercent
    case MemUsed => m.memUsed as real
    case Load1 => m.load1
    case Load5 => m.load5
    case Load15 => m.load15
  }

  /** Point j of the data falls in bucket i. */
  ghost predicate Falls(data: seq<TimedHost>, n: int, start: int, end: int, i: int, j: int)
    requires n > 0 && start < end
  {
    0 <= j < |data| && BucketIndex(n, start, end, data[j].ts) == i
  }

  ghost predicate EmptyBucket(data: seq<TimedHost>, n: int, start: int, end: int, i: int)
    requires n > 0 && start < end
  {
    forall j :: !Falls(data, n, start, end, i, j)
  }

  /** v is the largest value of the field over the points of the bucket. */
  ghost predicate IsPeak(data: seq<TimedHost>, n: int, start: int, end: int, i: int, f: HostField, v: real)
    requires n > 0 && start < end
  {
    && (exists j :: Falls(data, n, start, end, i, j) && Get(f, data[j].m) == v)
    && (forall j :: Falls(data, n, start, end, i, j) ==> Get(f, data[j].m) <= v)
  }

  ghost predicate IsFirst(data: seq<TimedHost>, n: int, start: int, end: int, i: int, j: int)
    requires n > 0 && start < end
  {
    Falls(data, n, start, end, i, j) && forall k :: Falls(data, n, start, end, i, k) ==> j <= k
  }

  /** What the point of a bucket must be: zero if the bucket is empty, and otherwise the peak
      of each kept field and the other fields of the bucket's first point. */
  ghost predicate IsHostBucket(data: seq<TimedHost>, n: int, start: int, end: int, i: int, p: TimedHost)
    requires n > 0 && start < end
  {
    && p.ts == BucketTime(n, start, end, i)
    && if EmptyBucket(data, n, start, end, i) then p.m == ZERO_HOST
       else
         && (forall f :: IsPeak(data, n, start, end, i, f, Get(f, p.m)))
         && (exists j :: IsFirst(data, n, start, end, i, j) && p.m.rest == data[j].m.rest)
  }

  ghost predicate IsHostDownsampling(data: seq<TimedHost>, n: int, start: int, end: int, out: seq<TimedHost>) {
    if n <= 0 || data == [] || end <= start then out == data
    else |out| == n && forall i :: 0 <= i < n ==> IsHostBucket(data, n, start, end, i, out[i])
  }

  /** The description leaves nothing open. */
  lemma HostBucketUnique(data: seq<TimedHost>, n: int, start: int, end: int, i: int, p: TimedHost, q: TimedHost)
    requires n > 0 && start < end && IsHostBucket(data, n, start, end, i, p) && IsHostBucket(data, n, start, end, i, q)
    ensures p == q
  {
    if !EmptyBucket(data, n, start, end, i) {
      forall f ensures Get(f, p.m) == Get(f, q.m) {
        assert IsPeak(data, n, start, end, i, f, Get(f, p.m)) && IsPeak(data, n, start, end, i, f, Get(f, q.m));
      }
      assert Get(Cpu, p.m) == Get(Cpu, q.m) && Get(MemPercent, p.m) == Get(MemPercent, q.m)
        && Get(MemUsed, p.m) == Get(MemUsed, q.m);
      assert Get(Load1, p.m) == Get(Load1, q.m) && Get(Load5, p.m) == Get(Load5, q.m)
        && Get(Load15, p.m) == Get(Load15, q.m);
      var j :| IsFirst(data, n, start, end, i, j) && p.m.rest == data[j].m.rest;
      var k :| IsFirst(data, n, start, end, i, k) && q.m.rest == data[k].m.rest;
      assert j == k;
    }
  }

  function Merge(b: HostMetrics, d: HostMetrics): HostMetrics {
    b.(cpu := if d.cpu > b.cpu then d.cpu else b.cpu,
       memPercent := if d.memPercent > b.memPercent then d.memPercent else b.memPercent,
       memUsed := if d.memUsed > b.memUsed then d.memUsed else b.memUsed,
       load1 := if d.load1 > b.load1 then d.load1 else b.load1,
       load5 := if d.load5 > b.load5 then d.load5 else b.load5,
       load15 := if d.load15 > b.load15 then d.load15 else b.load15)
  }

  lemma MergeIsMax(b: HostMetrics, d: HostMetrics, f: HostField)
    ensures Get(f, Merge(b, d)) == if Get(f, d) > Get(f, b) then Get(f, d) else Get(f, b)
  {}

  lemma FallsOneMore(data: seq<TimedHost>, d: TimedHost, n: int, start: int, end: int, i: int, j: int)
    requires n > 0 && start < end
    ensures Falls(data + [d], n, start, end, i, j)
      <==> Falls(data, n, start, end, i, j) || (j == |data| && BucketIndex(n, start, end, d.ts) == i)
  {}

  lemma PeakOneMore(data: seq<TimedHost>, d: TimedHost, n: int, start: int, end: int, i: int, f: HostField, v: real)
    requires n > 0 && start < end && IsPeak(data, n, start, end, i, f, v) && BucketIndex(n, start, end, d.ts) == i
    ensures IsPeak(data + [d], n, start, end, i, f, if Get(f, d.m) > v then Get(f, d.m) else v)
  {
    var more := data + [d];
    var j :| Falls(data, n, start, end, i, j) && Get(f, data[j].m) == v;
    assert Falls(more, n, start, end, i, j) && more[j] == data[j];
    assert Falls(more, n, start, end, i, |data|) && more[|data|] == d;
    forall k | Falls(more, n, start, end, i, k)
      ensures Get(f, more[k].m) <= if Get(f, d.m) > v then Get(f, d.m) else v
    {
      assert k < |data| ==> Falls(data, n, start, end, i, k);
    }
  }

  /** A point of another bucket leaves this one as it is. */
  lemma OtherBucket(data: seq<TimedHost>, d: TimedHost, n: int, start: int, end: int, i: int, p: TimedHost)
    requires n > 0 && start < end && BucketIndex(n, start, end, d.ts) != i && IsHostBucket(data, n, start, end, i, p)
    ensures IsHostBucket(data + [d], n, start, end, i, p)
  {
    var more := data + [d];
    forall j ensures Falls(more, n, start, end, i, j) <==> Falls(data, n, start, end, i, j) {
      FallsOneMore(data, d, n, start, end, i, j);
    }
    assert forall j :: 0 <= j < |data| ==> more[j] == data[j];
    if !EmptyBucket(data, n, start, end, i) {
      var j :| IsFirst(data, n, start, end, i, j) && p.m.rest == data[j].m.rest;
      assert IsFirst(more, n, start, end, i, j);
      forall f ensures IsPeak(more, n, start, end, i, f, Get(f, p.m)) {
        assert IsPeak(data, n, start, end, i, f, Get(f, p.m));
        var k :| Falls(data, n, start, end, i, k) && Get(f, data[k].m) == Get(f, p.m);
        assert Falls(more, n, start, end, i, k);
      }
    }
  }

  lemma FirstInBucket(data: seq<TimedHost>, d: TimedHost, n: int, start: int, end: int, i: int)
    requires n > 0 && start < end && BucketIndex(n, start, end, d.ts) == i && EmptyBucket(data, n, start, end, i)
    ensures IsHostBucket(data + [d], n, start, end, i, TimedHost(BucketTime(n, start, end, i), d.m))
  {
    var more := data + [d];
    forall j ensures Falls(more, n, start, end, i, j) <==> j == |data| {
      FallsOneMore(data, d, n, start, end, i, j);
    }
    assert more[|data|] == d;
    assert IsFirst(more, n, start, end, i, |data|);
    forall f ensures IsPeak(more, n, start, end, i, f, Get(f, d.m)) {
      assert Falls(more, n, start, end, i, |data|);
    }
  }

  lemma NextInBucket(data: seq<TimedHost>, d: TimedHost, n: int, start: int, end: int, i: int, p: TimedHost)
    requires n > 0 && start < end && BucketIndex(n, start, end, d.ts) == i
    requires !EmptyBucket(data, n, start, end, i) && IsHostBucket(data, n, start, end, i, p)
    ensures IsHostBucket(data + [d], n, start, end, i, p.(m := Merge(p.m, d.m)))
  {
    var more, q := data + [d], p.(m := Merge(p.m, d.m));
    var j :| IsFirst(data, n, start, end, i, j) && p.m.rest == data[j].m.rest;
    assert IsFirst(more, n, start, end, i, j) && more[j] == data[j] by {
      forall k | Falls(more, n, start, end, i, k) ensures j <= k { FallsOneMore(data, d, n, start, end, i, k); }
    }
    assert !EmptyBucket(more, n, start, end, i) by { assert Falls(more, n, start, end, i, j); }
    forall f ensures IsPeak(more, n, start, end, i, f, Get(f, q.m)) {
      MergeIsMax(p.m, d.m, f);
      assert IsPeak(data, n, start, end, i, f, Get(f, p.m));
      PeakOneMore(data, d, n, start, end, i, f, Get(f, p.m));
    }
  }

  /** The in-memory downsampling refines its simple description. */
  method DownsampleHost(data: seq<TimedHost>, n: int, start: int, end: int) returns (result: seq<TimedHost>)
    ensures IsHostDownsampling(data, n, start, end, result)
  {
    if n <= 0 || |data| == 0 {
      return data;
    }
    DurPositive(n, start, end);
    if BucketDur(n, start, end) <= 0.0 {
      return data;
    }
    var out, filled := EmptyBuckets(n, start, end);
    for k := 0 to |data|
      invariant out.Length == filled.Length == n
      invariant forall i :: 0 <= i < n ==> IsHostBucket(data[..k], n, start, end, i, out[i])
      invariant forall i :: 0 <= i < n ==> (filled[i] <==> !EmptyBucket(data[..k], n, start, end, i))
    {
      ghost var was, had := out[..], filled[..];
      AddPoint(data[..k], data[k], n, start, end, out, filled);
      assert data[..k + 1] == data[..k] + [data[k]];
      OneMorePoint(data[..k], data[k], n, start, end, was, out[..], had, filled[..]);
    }
    assert data[..|data|] == data;
    result := out[..];
  }

  method EmptyBuckets(n: int, start: int, end: int) returns (out: array<TimedHost>, filled: array<bool>)
    requires n > 0 && start < end
    ensures fresh(out) && fresh(filled) && out.Length == filled.Length == n
    ensures forall i :: 0 <= i < n ==> !filled[i] && IsHostBucket([], n, start, end, i, out[i])
  {
    out := new TimedHost[n](i => TimedHost(0, ZERO_HOST));
    filled := new bool[n](i => false);
    for i := 0 to n
      invariant forall j :: i <= j < n ==> out[j] == TimedHost(0, ZERO_HOST)
      invariant forall j :: 0 <= j < i ==> out[j] == TimedHost(BucketTime(n, start, end, j), ZERO_HOST)
      invariant forall j :: 0 <= j < n ==> !filled[j]
    {
      out[i] := out[i].(ts := BucketTime(n, start, end, i));
    }
    assert forall i :: EmptyBucket([], n, start, end, i);
  }

  /** Adds one point to the bucket it falls in; before are the points added so far. */
  method AddPoint(ghost before: seq<TimedHost>, d: TimedHost, n: int, start: int, end: int, out: array<TimedHost>,
                  filled: array<bool>)
    requires n > 0 && start < end && out.Length == filled.Length == n
    requires forall i :: 0 <= i < n ==> IsHostBucket(before, n, start, end, i, out[i])
    requires forall i :: 0 <= i < n ==> (filled[i] <==> !EmptyBucket(before, n, start, end, i))
    modifies out, filled
    ensures var idx := BucketIndex(n, start, end, d.ts);
      && filled[idx] && IsHostBucket(before + [d], n, start, end, idx, out[idx])
      && forall i :: 0 <= i < n && i != idx ==> out[i] == old(out[i]) && filled[i] == old(filled[i])
  {
    var idx := BucketIndex(n, start, end, d.ts);
    if !filled[idx] {
      FirstInBucket(before, d, n, start, end, idx);
      filled[idx] := true;
      out[idx] := TimedHost(BucketTime(n, start, end, idx), d.m);
    } else {
      NextInBucket(before, d, n, start, end, idx, out[idx]);
      out[idx] := out[idx].(m := Merge(out[idx].m, d.m));
    }
  }

  lemma OneMorePoint(data: seq<TimedHost>, d: TimedHost, n: int, start: int, end: int,
                     was: seq<TimedHost>, now: seq<TimedHost>, had: seq<bool>, has: seq<bool>)
    requires n > 0 && start < end
    requires |was| == |now| == |had| == |has| == n
    requires forall i :: 0 <= i < n ==> IsHostBucket(data, n, start, end, i, was[i])
    requires forall i :: 0 <= i < n ==> (had[i] <==> !EmptyBucket(data, n, start, end, i))
    requires var idx := BucketIndex(n, start, end, d.ts);
      && (forall i :: 0 <= i < n && i != idx ==> now[i] == was[i] && has[i] == had[i])
      && IsHostBucket(data + [d], n, start, end, idx, now[idx]) && has[idx]
    ensures forall i :: 0 <= i < n ==> IsHostBucket(data + [d], n, start, end, i, now[i])
    ensures forall i :: 0 <= i < n ==> (has[i] <==> !EmptyBucket(data + [d], n, start, end, i))
  {
    var idx := BucketIndex(n, start, end, d.ts);
    forall i | 0 <= i < n
      ensures IsHostBucket(data + [d], n, start, end, i, now[i])
      ensures has[i] <==> !EmptyBucket(data + [d], n, start, end, i)
    {
      if i == idx {
        assert Falls(data + [d], n, start, end, i, |data|);
      } else {
        OtherBucket(data, d, n, start, end, i, was[i]);
        forall j ensures Falls(data + [d], n, start, end, i, j) <==> Falls(data, n, start, end, i, j) {
          FallsOneMore(data, d, n, start, end, i, j);
        }
      }
    }
  }

  // ---------------------------------------------------------------- the grouped query

  /** Row j is in the queried range and in this group of whole seconds. */
  ghost predicate Grouped(raw: seq<TimedHost>, start: int, end: int, d: int, ts: int, j: int)
    requires d >= 1
  {
    0 <= j < |raw| && start <= raw[j].ts <= end && GroupTime(start, d, raw[j].ts) == ts
  }

  /** The columns of the grouped query; it has none for the number of CPUs. */
  datatype Column = Kept(f: HostField) | MemTotal | MemCached | MemFree | SwapTotal | SwapUsed | Uptime

  function Col(c: Column, m: HostMetrics): real {
    match c
    case Kept(f) => Get(f, m)
    case MemTotal => m.rest.memTotal as real
    case MemCached => m.rest.memCached as real
    case MemFree => m.rest.memFree as real
    case SwapTotal => m.rest.swapTotal as real
    case SwapUsed => m.rest.swapUsed as real
    case Uptime => m.rest.uptime
  }

  /** What the grouped query returns: one row for each group that has rows in range, in the order
      of time, with the largest value of each column over the group. */
  ghost predicate IsHostGrouping(raw: seq<TimedHost>, start: int, end: int, d: int, out: seq<TimedHost>)
    requires d >= 1
  {
    && (forall x, y :: 0 <= x < y < |out| ==> out[x].ts < out[y].ts)
    && (forall j {:trigger HasGroup(out, GroupTime(start, d, raw[j].ts))} ::
          0 <= j < |raw| && start <= raw[j].ts <= end ==> HasGroup(out, GroupTime(start, d, raw[j].ts)))
    && (forall x {:trigger IsGroupRow(raw, start, end, d, out[x])} ::
          0 <= x < |out| ==> IsGroupRow(raw, start, end, d, out[x]))
  }

  ghost predicate IsGroupRow(raw: seq<TimedHost>, start: int, end: int, d: int, p: TimedHost)
    requires d >= 1
  {
    p.m.rest.cpus == 0 && forall c :: IsGroupPeak(raw, start, end, d, p.ts, c, Col(c, p.m))
  }

  ghost predicate IsGroupPeak(raw: seq<TimedHost>, start: int, end: int, d: int, ts: int, c: Column, v: real)
    requires d >= 1
  {
    && (exists j :: Grouped(raw, start, end, d, ts, j) && Col(c, raw[j].m) == v)
    && (forall j :: Grouped(raw, start, end, d, ts, j) ==> Col(c, raw[j].m) <= v)
  }

  function MergeRest(b: HostRest, d: HostRest): HostRest {
    HostRest(b.cpus,
             if d.memTotal > b.memTotal then d.memTotal else b.memTotal,
             if d.memCached > b.memCached then d.memCached else b.memCached,
             if d.memFree > b.memFree then d.memFree else b.memFree,
             if d.swapTotal > b.swapTotal then d.swapTotal else b.swapTotal,
             if d.swapUsed > b.swapUsed then d.swapUsed else b.swapUsed,
             if d.uptime > b.uptime then d.uptime else b.uptime)
  }

  /** The larger value of every column. */
  function MergeColumns(b: HostMetrics, d: HostMetrics): HostMetrics {
    Merge(b, d).(rest := MergeRest(b.rest, d.rest))
  }

  lemma LaterGroupStarts(start: int, d: int, g: int, h: int)
    requires d >= 1 && g < h
    ensures start + g * d < start + h * d
  {}

  lemma GroupNumber(start: int, end: int, d: int, ts: int)
    requires d >= 1 && start <= ts <= end
    ensures 0 <= (ts - start) / d <= (end - start) / d
  {
    QuotientNonNegative(ts - start, d);
    QuotientMonotone(ts - start, end - start, d);
  }

  /** Runs the grouped query. The loop over the groups stands for the database's GROUP BY. */
  method QueryHostMetricsGrouped(raw: seq<TimedHost>, start: int, end: int, bucketDur: int)
    returns (out: seq<TimedHost>)
    ensures IsHostGrouping(raw, start, end, if bucketDur <= 0 then 1 else bucketDur, out)
  {
    var d := if bucketDur <= 0 then 1 else bucketDur;
    out := [];
    var groups := if end < start then 0 else (end - start) / d + 1;
    if start <= end {
      QuotientNonNegative(end - start, d);
    }
    for g := 0 to groups
      invariant forall x :: 0 <= x < |out| ==> out[x].ts < start + g * d && IsGroupRow(raw, start, end, d, out[x])
      invariant forall x, y :: 0 <= x < y < |out| ==> out[x].ts < out[y].ts
      invariant forall j :: 0 <= j < |raw| && start <= raw[j].ts <= end && (raw[j].ts - start) / d < g ==>
        HasGroup(out, GroupTime(start, d, raw[j].ts))
    {
      var found, m := MaxOfGroup(raw, start, end, d, start + g * d);
      ghost var was := out;
      if found {
        out := out + [TimedHost(start + g * d, m)];
      }
      LaterGroupStarts(start, d, g, g + 1);
      forall j | 0 <= j < |raw| && start <= raw[j].ts <= end && (raw[j].ts - start) / d < g + 1
        ensures HasGroup(out, GroupTime(start, d, raw[j].ts))
      {
        if (raw[j].ts - start) / d < g {
          var x :| 0 <= x < |was| && was[x].ts == GroupTime(start, d, raw[j].ts);
          assert out[x] == was[x];
        } else {
          assert Grouped(raw, start, end, d, start + g * d, j);
          assert out[|was|].ts == GroupTime(start, d, raw[j].ts);
        }
      }
    }
    forall j | 0 <= j < |raw| && start <= raw[j].ts <= end ensures HasGroup(out, GroupTime(start, d, raw[j].ts)) {
      GroupNumber(start, end, d, raw[j].ts);
    }
  }

  ghost predicate HasGroup(out: seq<TimedHost>, ts: int) {
    exists x :: 0 <= x < |out| && out[x].ts == ts
  }

  /** The largest value of each column over the rows of one group, if it has any. */
  method MaxOfGroup(raw: seq<TimedHost>, start: int, end: int, d: int, ts: int) returns (found: bool, m: HostMetrics)
    requires d >= 1
    ensures found <==> exists j :: Grouped(raw, start, end, d, ts, j)
    ensures found ==> IsGroupRow(raw, start, end, d, TimedHost(ts, m))
  {
    found, m := false, ZERO_HOST;
    for k := 0 to |raw|
      invariant found <==> exists j :: 0 <= j < k && Grouped(raw, start, end, d, ts, j)
      invariant m.rest.cpus == 0
      invariant found ==> forall c :: MaxSoFar(raw, start, end, d, ts, k, c, Col(c, m))
    {
      if start <= raw[k].ts <= end && GroupTime(start, d, raw[k].ts) == ts {
        ghost var was := m;
        assert Grouped(raw, start, end, d, ts, k);
        m := if found then MergeColumns(m, raw[k].m) else raw[k].m.(rest := raw[k].m.rest.(cpus := 0));
        forall c ensures MaxSoFar(raw, start, end, d, ts, k + 1, c, Col(c, m)) {
          if found {
            assert MaxSoFar(raw, start, end, d, ts, k, c, Col(c, was));
          }
        }
        found := true;
      } else if found {
        forall c ensures MaxSoFar(raw, start, end, d, ts, k + 1, c, Col(c, m)) {
          assert MaxSoFar(raw, start, end, d, ts, k, c, Col(c, m));
        }
      }
    }
    if found {
      forall c ensures IsGroupPeak(raw, start, end, d, ts, c, Col(c, m)) {
        assert MaxSoFar(raw, start, end, d, ts, |raw|, c, Col(c, m));
      }
    }
  }

  ghost predicate MaxSoFar(raw: seq<TimedHost>, start: int, end: int, d: int, ts: int, k: int, c: Column, v: real)
    requires d >= 1
  {
    && (exists j :: 0 <= j < k && Grouped(raw, start, end, d, ts, j) && Col(c, raw[j].m) == v)
    && (forall j :: 0 <= j < k && Grouped(raw, start, end, d, ts, j) ==> Col(c, raw[j].m) <= v)
  }

  // ---------------------------------------------------------------- both stages

  /** A downsampled history query: n buckets over [start, end], grouped by the database first. */
  ghost predicate IsHostHistory(raw: seq<TimedHost>, n: int, start: int, end: int, out: seq<TimedHost>)
    requires n > 0 && start < end
  {
    exists groups :: IsHostGrouping(raw, start, end, GroupDur(n, start, end), groups)
                     && IsHostDownsampling(groups, n, start, end, out)
  }

  /** No row is lost: its bucket, or the one before, shows at least its value of every kept field. */
  lemma RowsAreCovered(raw: seq<TimedHost>, n: int, start: int, end: int, out: seq<TimedHost>, j: nat)
    requires n > 0 && start < end && IsHostHistory(raw, n, start, end, out)
    requires j < |raw| && start <= raw[j].ts <= end
    ensures |out| == n
    ensures var own := BucketIndex(n, start, end, raw[j].ts);
      exists b :: own - 1 <= b <= own && 0 <= b < n && forall f :: Get(f, out[b].m) >= Get(f, raw[j].m)
  {
    var d := GroupDur(n, start, end);
    var groups: seq<TimedHost> :| IsHostGrouping(raw, start, end, d, groups)
      && IsHostDownsampling(groups, n, start, end, out);
    assert HasGroup(groups, GroupTime(start, d, raw[j].ts));
    var x :| 0 <= x < |groups| && groups[x].ts == GroupTime(start, d, raw[j].ts);
    GroupShiftsAtMostOneBucket(n, start, end, raw[j].ts);
    var b := BucketIndex(n, start, end, groups[x].ts);
    assert Falls(groups, n, start, end, b, x);
    assert IsHostBucket(groups, n, start, end, b, out[b]);
    forall f ensures Get(f, out[b].m) >= Get(f, raw[j].m) {
      assert IsPeak(groups, n, start, end, b, f, Get(f, out[b].m));
      assert IsGroupRow(raw, start, end, d, groups[x]);
      assert IsGroupPeak(raw, start, end, d, groups[x].ts, Kept(f), Col(Kept(f), groups[x].m));
      assert Grouped(raw, start, end, d, groups[x].ts, j);
    }
  }

  lemma GroupValueIsARows(raw: seq<TimedHost>, start: int, end: int, d: int, groups: seq<TimedHost>, x: int,
                          f: HostField) returns (j: int)
    requires d >= 1 && IsHostGrouping(raw, start, end, d, groups) && 0 <= x < |groups|
    ensures Grouped(raw, start, end, d, groups[x].ts, j) && Get(f, raw[j].m) == Get(f, groups[x].m)
  {
    assert IsGroupRow(raw, start, end, d, groups[x]);
    assert IsGroupPeak(raw, start, end, d, groups[x].ts, Kept(f), Col(Kept(f), groups[x].m));
    j :| Grouped(raw, start, end, d, groups[x].ts, j) && Col(Kept(f), raw[j].m) == Col(Kept(f), groups[x].m);
  }

  /** Row j is in range and has this value, and belongs to bucket b or the next. */
  ghost predicate Attains(raw: seq<TimedHost>, n: int, start: int, end: int, b: int, f: HostField, v: real, j: int)
    requires n > 0 && start < end
  {
    && 0 <= j < |raw| && start <= raw[j].ts <= end && Get(f, raw[j].m) == v
    && b <= BucketIndex(n, start, end, raw[j].ts) <= b + 1
  }

  /** Nothing is made up: a value a bucket shows is zero, in a bucket whose fields are all zero,
      or the value of a row in range that belongs to this bucket or the next. */
  lemma ValuesAreAttained(raw: seq<TimedHost>, n: int, start: int, end: int, out: seq<TimedHost>, b: int, f: HostField)
    requires n > 0 && start < end && IsHostHistory(raw, n, start, end, out) && 0 <= b < n
    requires exists j :: 0 <= j < |raw| && start <= raw[j].ts <= end
    ensures |out| == n
    ensures out[b].m == HostMetrics(0.0, 0.0, 0, 0.0, 0.0, 0.0, HostRest(0, 0, 0, 0, 0, 0, 0.0))
      || exists j :: Attains(raw, n, start, end, b, f, Get(f, out[b].m), j)
  {
    var d := GroupDur(n, start, end);
    var groups: seq<TimedHost> :| IsHostGrouping(raw, start, end, d, groups)
      && IsHostDownsampling(groups, n, start, end, out);
    var any :| 0 <= any < |raw| && start <= raw[any].ts <= end;
    assert HasGroup(groups, GroupTime(start, d, raw[any].ts)) && groups != [];
    assert IsHostBucket(groups, n, start, end, b, out[b]);
    if !EmptyBucket(groups, n, start, end, b) {
      assert IsPeak(groups, n, start, end, b, f, Get(f, out[b].m));
      var x :| Falls(groups, n, start, end, b, x) && Get(f, groups[x].m) == Get(f, out[b].m);
      var j := GroupValueIsARows(raw, start, end, d, groups, x, f);
      GroupShiftsAtMostOneBucket(n, start, end, raw[j].ts);
      assert Attains(raw, n, start, end, b, f, Get(f, out[b].m), j);
    }
  }

  /** The overall peak of every kept field survives: some bucket shows it, and, when it is not
      negative, no bucket shows more. */
  lemma PeakIsKept(raw: seq<TimedHost>, n: int, start: int, end: int, out: seq<TimedHost>, j: nat, f: HostField)
    requires n > 0 && start < end && IsHostHistory(raw, n, start, end, out)
    requires j < |raw| && start <= raw[j].ts <= end
    requires forall k :: 0 <= k < |raw| && start <= raw[k].ts <= end ==> Get(f, raw[k].m) <= Get(f, raw[j].m)
    ensures |out| == n
    ensures exists b :: 0 <= b < n && Get(f, out[b].m) >= Get(f, raw[j].m)
    ensures Get(f, raw[j].m) >= 0.0 ==>
      (exists b :: 0 <= b < n && Get(f, out[b].m) == Get(f, raw[j].m))
      && (forall b :: 0 <= b < n ==> Get(f, out[b].m) <= Get(f, raw[j].m))
  {
    RowsAreCovered(raw, n, start, end, out, j);
    var own := BucketIndex(n, start, end, raw[j].ts);
    var b :| own - 1 <= b <= own && 0 <= b < n && forall f :: Get(f, out[b].m) >= Get(f, raw[j].m);
    assert Get(f, out[b].m) >= Get(f, raw[j].m);
    if Get(f, raw[j].m) >= 0.0 {
      forall c | 0 <= c < n ensures Get(f, out[c].m) <= Get(f, raw[j].m) {
        ValuesAreAttained(raw, n, start, end, out, c, f);
        if out[c].m != ZERO_HOST {
          var k :| Attains(raw, n, start, end, c, f, Get(f, out[c].m), k);
        }
      }
    }
  }
}
