/** Downsampling of container metrics per service: the grouped query, the in-memory bucketing
    with its sparse and dense branches, and the two stages in a row
    (internal/agent/store_queries.go, downsample.go, socket.go). */
module DownsampleContainers {
  import opened Buckets

  /** Fields that a dense series loses and a sparse one copies. */
  datatype ContainerRest = ContainerRest(cpuLimit: real, memLimit: int, netRx: int, netTx: int,
                                         blockRead: int, blockWrite: int, pids: int)

  datatype ContainerMetrics = ContainerMetrics(project: string, service: string,
                                               cpu: real, memUsage: int, memPercent: real, rest: ContainerRest)

  datatype TimedContainer = TimedContainer(ts: int, m: ContainerMetrics)

  const ZERO_REST := ContainerRest(0.0, 0, 0, 0, 0, 0, 0)

  function ZeroMetrics(project: string, service: string): ContainerMetrics {
    ContainerMetrics(project, service, 0.0, 0, 0.0, ZERO_REST)
  }

  datatype Peaked = Cpu | MemUsage | MemPercent

  function Get(f: Peaked, m: ContainerMetrics): real {
    match f
    case Cpu => m.cpu
    case MemUsage => m.memUsage as real
    case MemPercent => m.memPercent
  }

  // ---------------------------------------------------------------- services

  function ServiceKey(project: string, service: string): string {
    project + "\0" + service
  }

  function KeyOf(p: TimedContainer): string { ServiceKey(p.m.project, p.m.service) }

  predicate NulFree(s: string) { '\0' !in s }

  /** The key tells services apart when no project name contains a NUL. */
  lemma ServiceKeyInjective(p: string, s: string, q: string, t: string)
    requires NulFree(p) && NulFree(q) && ServiceKey(p, s) == ServiceKey(q, t)
    ensures p == q && s == t
  {
    var k := ServiceKey(p, s);
    assert k[|p|] == '\0' && k[..|p|] == p && k[|p| + 1..] == s;
    assert ServiceKey(q, t)[|q|] == '\0' && ServiceKey(q, t)[..|q|] == q && ServiceKey(q, t)[|q| + 1..] == t;
    assert forall j :: 0 <= j < |p| ==> k[j] == p[j];
    assert forall j :: 0 <= j < |q| ==> k[j] == q[j];
    assert |p| == |q|;
  }

  /** No other service shares a service's key exactly when neither of its names has a NUL. */
  lemma ServiceKeyUniqueIff(p: string, s: string)
    ensures (forall q, t :: ServiceKey(q, t) == ServiceKey(p, s) ==> q == p && t == s) <==> NulFree(p) && NulFree(s)
  {
    if NulFree(p) && NulFree(s) {
      forall q, t | ServiceKey(q, t) == ServiceKey(p, s) ensures q == p && t == s {
        OnlyNulSplits(p, s, q, t);
      }
    } else if !NulFree(p) {
      var i :| 0 <= i < |p| && p[i] == '\0';
      assert ServiceKey(p[..i], p[i + 1..] + "\0" + s) == ServiceKey(p, s);
      assert p[..i] != p;
    } else {
      var i :| 0 <= i < |s| && s[i] == '\0';
      assert ServiceKey(p + "\0" + s[..i], s[i + 1..]) == ServiceKey(p, s);
      assert p + "\0" + s[..i] != p;
    }
  }

  lemma OnlyNulSplits(p: string, s: string, q: string, t: string)
    requires NulFree(p) && NulFree(s) && ServiceKey(q, t) == ServiceKey(p, s)
    ensures q == p && t == s
  {
    var k := ServiceKey(p, s);
    assert ServiceKey(q, t)[|q|] == '\0' && ServiceKey(q, t)[..|q|] == q && ServiceKey(q, t)[|q| + 1..] == t;
    assert k[..|p|] == p && k[|p| + 1..] == s;
    assert forall j :: 0 <= j < |p| ==> k[j] == p[j];
    assert forall j :: |p| < j < |k| ==> k[j] == s[j - |p| - 1];
    assert |q| == |p|;
  }

  /** With a NUL in a project name, two services can share a key. */
  lemma NulNamesCollide()
    ensures ServiceKey("a\0b", "c") == ServiceKey("a", "b\0c")
  {
    assert ServiceKey("a\0b", "c") == "a\0b\0c";
    assert ServiceKey("a", "b\0c") == "a\0b\0c";
  }

  /** The distinct keys, in the order they are first seen. */
  function KeysOf(data: seq<TimedContainer>): seq<string>
    decreases |data|
  {
    if data == [] then []
    else
      var keys := KeysOf(data[..|data| - 1]);
      var k := KeyOf(data[|data| - 1]);
      if k in keys then keys else keys + [k]
  }

  /** The points of one key, in their order. */
  function SeriesOf(data: seq<TimedContainer>, key: string): seq<TimedContainer>
    decreases |data|
  {
    if data == [] then []
    else
      var s := SeriesOf(data[..|data| - 1], key);
      if KeyOf(data[|data| - 1]) == key then s + [data[|data| - 1]] else s
  }

  ghost predicate FirstSeen(data: seq<TimedContainer>, key: string, j: int) {
    0 <= j < |data| && KeyOf(data[j]) == key && forall i :: 0 <= i < j ==> KeyOf(data[i]) != key
  }

  lemma {:induction false} KeysAreThosePresent(data: seq<TimedContainer>)
    ensures forall j :: 0 <= j < |data| ==> KeyOf(data[j]) in KeysOf(data)
    ensures forall k :: k in KeysOf(data) ==> exists j :: FirstSeen(data, k, j)
    decreases |data|
  {
    if data != [] {
      var n := |data| - 1;
      var init := data[..n];
      KeysAreThosePresent(init);
      assert forall i :: 0 <= i < n ==> data[i] == init[i];
      forall k | k in KeysOf(data) ensures exists j :: FirstSeen(data, k, j) {
        if k in KeysOf(init) {
          var j :| FirstSeen(init, k, j);
          assert FirstSeen(data, k, j);
        } else {
          assert FirstSeen(data, k, n);
        }
      }
    }
  }

  lemma {:induction false} KeysDistinct(data: seq<TimedContainer>)
    ensures forall i, j :: 0 <= i < j < |KeysOf(data)| ==> KeysOf(data)[i] != KeysOf(data)[j]
    decreases |data|
  {
    if data != [] {
      KeysDistinct(data[..|data| - 1]);
    }
  }

  lemma {:induction false} FirstSeenInOrder(data: seq<TimedContainer>, a: nat, b: nat, p: int, q: int)
    requires a < b < |KeysOf(data)| && FirstSeen(data, KeysOf(data)[a], p) && FirstSeen(data, KeysOf(data)[b], q)
    ensures p < q
    decreases |data|
  {
    var n := |data| - 1;
    var init := data[..n];
    KeysDistinct(data);
    if q < n {
      KeysAreThosePresent(init);
      assert KeyOf(init[q]) in KeysOf(init);
      assert KeysOf(data)[a] in KeysOf(init);
      var i :| FirstSeen(init, KeysOf(data)[a], i);
      assert data[i] == init[i];
      FirstSeenInOrder(init, a, b, p, q);
    }
  }

  /** The keys are exactly those of the points, each once, in the order of first appearance. */
  lemma KeysInFirstSeenOrder(data: seq<TimedContainer>)
    ensures forall k :: k in KeysOf(data) <==> exists j :: 0 <= j < |data| && KeyOf(data[j]) == k
    ensures forall i, j :: 0 <= i < j < |KeysOf(data)| ==> KeysOf(data)[i] != KeysOf(data)[j]
    ensures forall a, b, p, q ::
      (0 <= a < b < |KeysOf(data)| && FirstSeen(data, KeysOf(data)[a], p) && FirstSeen(data, KeysOf(data)[b], q)) ==>
        p < q
  {
    KeysAreThosePresent(data);
    KeysDistinct(data);
    forall k | k in KeysOf(data) ensures exists j :: 0 <= j < |data| && KeyOf(data[j]) == k {
      var j :| FirstSeen(data, k, j);
    }
    forall a, b, p, q | 0 <= a < b < |KeysOf(data)| && FirstSeen(data, KeysOf(data)[a], p)
      && FirstSeen(data, KeysOf(data)[b], q)
      ensures p < q
    {
      FirstSeenInOrder(data, a, b, p, q);
    }
  }

  /** A point is in the series of its key and in no other. */
  lemma {:induction false} SeriesHasItsPoints(data: seq<TimedContainer>, key: string)
    ensures forall p :: p in SeriesOf(data, key) <==> p in data && KeyOf(p) == key
    decreases |data|
  {
    if data != [] {
      SeriesHasItsPoints(data[..|data| - 1], key);
      assert data == data[..|data| - 1] + [data[|data| - 1]];
    }
  }

  /** The points of a series keep their order and number: it is made of those of one part of the
      data and then those of the rest, point by point. */
  lemma {:induction false} SeriesOfConcat(a: seq<TimedContainer>, b: seq<TimedContainer>, key: string)
    ensures SeriesOf(a + b, key) == SeriesOf(a, key) + SeriesOf(b, key)
    ensures |b| == 1 ==> SeriesOf(b, key) == if KeyOf(b[0]) == key then b else []
    decreases |b|
  {
    if b == [] {
      assert a + b == a;
    } else {
      var c := b[..|b| - 1];
      assert (a + b)[..|a + b| - 1] == a + c;
      SeriesOfConcat(a, c, key);
    }
  }

  // ---------------------------------------------------------------- one bucket

  ghost predicate Falls(s: seq<TimedContainer>, n: int, start: int, end: int, i: int, j: int)
    requires n > 0 && start < end
  {
    0 <= j < |s| && BucketIndex(n, start, end, s[j].ts) == i
  }

  ghost predicate EmptyBucket(s: seq<TimedContainer>, n: int, start: int, end: int, i: int)
    requires n > 0 && start < end
  {
    forall j :: !Falls(s, n, start, end, i, j)
  }

  /** Point j is the first of the bucket with the bucket's highest CPU. */
  ghost predicate IsBusiest(s: seq<TimedContainer>, n: int, start: int, end: int, i: int, j: int)
    requires n > 0 && start < end
  {
    && Falls(s, n, start, end, i, j)
    && (forall k :: Falls(s, n, start, end, i, k) ==> s[k].m.cpu <= s[j].m.cpu)
    && (forall k :: Falls(s, n, start, end, i, k) && k < j ==> s[k].m.cpu < s[j].m.cpu)
  }

  /** A short series keeps, per bucket, the whole record with the highest CPU. */
  ghost predicate IsSparseBucket(s: seq<TimedContainer>, project: string, service: string, n: int, start: int,
                                 end: int, i: int, p: TimedContainer)
    requires n > 0 && start < end
  {
    && p.ts == BucketTime(n, start, end, i)
    && if EmptyBucket(s, n, start, end, i) then p.m == ZeroMetrics(project, service)
       else exists j :: IsBusiest(s, n, start, end, i, j) && p.m == s[j].m
  }

  /** v is the larger of zero and the largest value of the field over the bucket. */
  ghost predicate IsPeakFromZero(s: seq<TimedContainer>, n: int, start: int, end: int, i: int, f: Peaked, v: real)
    requires n > 0 && start < end
  {
    && v >= 0.0
    && (forall j :: Falls(s, n, start, end, i, j) ==> Get(f, s[j].m) <= v)
    && (v == 0.0 || exists j :: Falls(s, n, start, end, i, j) && Get(f, s[j].m) == v)
  }

  /** A long series keeps, per bucket, the peaks of CPU and memory, counted from zero. */
  ghost predicate IsDenseBucket(s: seq<TimedContainer>, project: string, service: string, n: int, start: int,
                                end: int, i: int, p: TimedContainer)
    requires n > 0 && start < end
  {
    && p.ts == BucketTime(n, start, end, i)
    && p.m == ZeroMetrics(project, service).(cpu := p.m.cpu, memUsage := p.m.memUsage, memPercent := p.m.memPercent)
    && forall f :: IsPeakFromZero(s, n, start, end, i, f, Get(f, p.m))
  }

  /** The two branches agree on a bucket's CPU exactly when the bucket is empty or some CPU in
      it is not negative. */
  lemma BranchesAgreeIff(s: seq<TimedContainer>, project: string, service: string, n: int, start: int, end: int, i: int,
                         p: TimedContainer, q: TimedContainer)
    requires n > 0 && start < end
    requires IsSparseBucket(s, project, service, n, start, end, i, p)
      && IsDenseBucket(s, project, service, n, start, end, i, q)
    ensures p.m.cpu == q.m.cpu <==>
      EmptyBucket(s, n, start, end, i) || exists j :: Falls(s, n, start, end, i, j) && s[j].m.cpu >= 0.0
  {
    assert IsPeakFromZero(s, n, start, end, i, Cpu, Get(Cpu, q.m));
    if !EmptyBucket(s, n, start, end, i) {
      var j :| IsBusiest(s, n, start, end, i, j) && p.m == s[j].m;
      assert Get(Cpu, s[j].m) == s[j].m.cpu;
      if q.m.cpu != 0.0 {
        var k :| Falls(s, n, start, end, i, k) && Get(Cpu, s[k].m) == Get(Cpu, q.m);
      }
    }
  }

  /** A short series keeps a bucket's peak of a field exactly when the first of its records with
      the highest CPU has it. */
  lemma SparseKeepsIff(s: seq<TimedContainer>, project: string, service: string, n: int, start: int, end: int, i: int,
                       p: TimedContainer, f: Peaked, busiest: int)
    requires n > 0 && start < end && IsSparseBucket(s, project, service, n, start, end, i, p)
    requires IsBusiest(s, n, start, end, i, busiest)
    ensures (forall k :: Falls(s, n, start, end, i, k) ==> Get(f, s[k].m) <= Get(f, p.m)) <==>
      forall k :: Falls(s, n, start, end, i, k) ==> Get(f, s[k].m) <= Get(f, s[busiest].m)
  {
    assert Falls(s, n, start, end, i, busiest);
    var j :| IsBusiest(s, n, start, end, i, j) && p.m == s[j].m;
    assert j == busiest;
  }

  // ---------------------------------------------------------------- the sparse branch

  lemma FallsOneMore(s: seq<TimedContainer>, d: TimedContainer, n: int, start: int, end: int, i: int)
    requires n > 0 && start < end
    ensures forall j ::
      Falls(s + [d], n, start, end, i, j) <==>
        Falls(s, n, start, end, i, j) || (j == |s| && BucketIndex(n, start, end, d.ts) == i)
  {}

  lemma SparseOtherBucket(s: seq<TimedContainer>, d: TimedContainer, project: string, service: string, n: int,
                          start: int, end: int, i: int, p: TimedContainer)
    requires n > 0 && start < end && BucketIndex(n, start, end, d.ts) != i
    requires IsSparseBucket(s, project, service, n, start, end, i, p)
    ensures IsSparseBucket(s + [d], project, service, n, start, end, i, p)
    ensures EmptyBucket(s + [d], n, start, end, i) <==> EmptyBucket(s, n, start, end, i)
  {
    FallsOneMore(s, d, n, start, end, i);
    if !EmptyBucket(s, n, start, end, i) {
      var j :| IsBusiest(s, n, start, end, i, j) && p.m == s[j].m;
      assert IsBusiest(s + [d], n, start, end, i, j);
    }
  }

  lemma SparseSameBucket(s: seq<TimedContainer>, d: TimedContainer, project: string, service: string, n: int,
                         start: int, end: int, i: int, p: TimedContainer)
    requires n > 0 && start < end && BucketIndex(n, start, end, d.ts) == i
    requires IsSparseBucket(s, project, service, n, start, end, i, p)
    ensures IsSparseBucket(s + [d], project, service, n, start, end, i,
      if EmptyBucket(s, n, start, end, i) || d.m.cpu > p.m.cpu
      then TimedContainer(BucketTime(n, start, end, i), d.m) else p)
    ensures !EmptyBucket(s + [d], n, start, end, i)
  {
    FallsOneMore(s, d, n, start, end, i);
    var more := s + [d];
    assert more[|s|] == d && Falls(more, n, start, end, i, |s|);
    if EmptyBucket(s, n, start, end, i) {
      assert IsBusiest(more, n, start, end, i, |s|);
    } else {
      var j :| IsBusiest(s, n, start, end, i, j) && p.m == s[j].m;
      assert more[j] == s[j];
      if d.m.cpu > p.m.cpu {
        assert IsBusiest(more, n, start, end, i, |s|);
      } else {
        assert IsBusiest(more, n, start, end, i, j);
      }
    }
  }

  method SparseBuckets(series: seq<TimedContainer>, project: string, service: string, n: int, start: int, end: int)
    returns (result: seq<TimedContainer>)
    requires n > 0 && start < end
    ensures |result| == n
    ensures forall i :: 0 <= i < n ==> IsSparseBucket(series, project, service, n, start, end, i, result[i])
  {
    var buckets := ZeroBuckets(project, service, n, start, end);
    var filled := new bool[n](i => false);
    assert forall i :: EmptyBucket(series[..0], n, start, end, i);
    for k := 0 to |series|
      invariant buckets.Length == n
      invariant forall i :: 0 <= i < n ==> IsSparseBucket(series[..k], project, service, n, start, end, i, buckets[i])
      invariant forall i :: 0 <= i < n ==> (filled[i] <==> !EmptyBucket(series[..k], n, start, end, i))
    {
      var d := series[k];
      var idx := BucketIndex(n, start, end, d.ts);
      assert series[..k + 1] == series[..k] + [d];
      forall i | 0 <= i < n && i != idx
        ensures IsSparseBucket(series[..k + 1], project, service, n, start, end, i, buckets[i])
        ensures EmptyBucket(series[..k + 1], n, start, end, i) <==> EmptyBucket(series[..k], n, start, end, i)
      {
        SparseOtherBucket(series[..k], d, project, service, n, start, end, i, buckets[i]);
      }
      SparseSameBucket(series[..k], d, project, service, n, start, end, idx, buckets[idx]);
      if !filled[idx] || d.m.cpu > buckets[idx].m.cpu {
        buckets[idx] := TimedContainer(BucketTime(n, start, end, idx), d.m);
        filled[idx] := true;
      }
    }
    assert series[..|series|] == series;
    result := buckets[..];
  }

  method ZeroBuckets(project: string, service: string, n: int, start: int, end: int)
    returns (buckets: array<TimedContainer>)
    requires n > 0 && start < end
    ensures fresh(buckets) && buckets.Length == n
    ensures forall i :: 0 <= i < n ==>
      buckets[i] == TimedContainer(BucketTime(n, start, end, i), ZeroMetrics(project, service))
  {
    buckets := new TimedContainer[n](i => TimedContainer(0, ZeroMetrics("", "")));
    for i := 0 to n
      invariant forall j :: 0 <= j < i ==>
        buckets[j] == TimedContainer(BucketTime(n, start, end, j), ZeroMetrics(project, service))
    {
      buckets[i] := TimedContainer(BucketTime(n, start, end, i), ZeroMetrics(project, service));
    }
  }

  // ---------------------------------------------------------------- the dense branch

  function Raise(b: ContainerMetrics, d: ContainerMetrics): ContainerMetrics {
    b.(cpu := if d.cpu > b.cpu then d.cpu else b.cpu,
       memUsage := if d.memUsage > b.memUsage then d.memUsage else b.memUsage,
       memPercent := if d.memPercent > b.memPercent then d.memPercent else b.memPercent)
  }

  lemma DenseOtherBucket(s: seq<TimedContainer>, d: TimedContainer, project: string, service: string, n: int,
                         start: int, end: int, i: int, p: TimedContainer)
    requires n > 0 && start < end && BucketIndex(n, start, end, d.ts) != i
    requires IsDenseBucket(s, project, service, n, start, end, i, p)
    ensures IsDenseBucket(s + [d], project, service, n, start, end, i, p)
  {
    FallsOneMore(s, d, n, start, end, i);
    forall f ensures IsPeakFromZero(s + [d], n, start, end, i, f, Get(f, p.m)) {
      assert IsPeakFromZero(s, n, start, end, i, f, Get(f, p.m));
      if Get(f, p.m) != 0.0 {
        var j :| Falls(s, n, start, end, i, j) && Get(f, s[j].m) == Get(f, p.m);
        assert Falls(s + [d], n, start, end, i, j) && (s + [d])[j] == s[j];
      }
    }
  }

  lemma DenseSameBucket(s: seq<TimedContainer>, d: TimedContainer, project: string, service: string, n: int,
                        start: int, end: int, i: int, p: TimedContainer)
    requires n > 0 && start < end && BucketIndex(n, start, end, d.ts) == i
    requires IsDenseBucket(s, project, service, n, start, end, i, p)
    ensures IsDenseBucket(s + [d], project, service, n, start, end, i, p.(m := Raise(p.m, d.m)))
  {
    FallsOneMore(s, d, n, start, end, i);
    var more, q := s + [d], p.(m := Raise(p.m, d.m));
    forall f ensures IsPeakFromZero(more, n, start, end, i, f, Get(f, q.m)) {
      assert IsPeakFromZero(s, n, start, end, i, f, Get(f, p.m));
      assert Get(f, q.m) == if Get(f, d.m) > Get(f, p.m) then Get(f, d.m) else Get(f, p.m);
      if Get(f, d.m) > Get(f, p.m) {
        assert Falls(more, n, start, end, i, |s|) && more[|s|] == d;
      } else if Get(f, p.m) != 0.0 {
        var j :| Falls(s, n, start, end, i, j) && Get(f, s[j].m) == Get(f, p.m);
        assert Falls(more, n, start, end, i, j) && more[j] == s[j];
      }
    }
  }

  method DenseBuckets(series: seq<TimedContainer>, project: string, service: string, n: int, start: int, end: int)
    returns (result: seq<TimedContainer>)
    requires n > 0 && start < end
    ensures |result| == n
    ensures forall i :: 0 <= i < n ==> IsDenseBucket(series, project, service, n, start, end, i, result[i])
  {
    var buckets := ZeroBuckets(project, service, n, start, end);
    for k := 0 to |series|
      invariant buckets.Length == n
      invariant forall i :: 0 <= i < n ==> IsDenseBucket(series[..k], project, service, n, start, end, i, buckets[i])
    {
      var d := series[k];
      var idx := BucketIndex(n, start, end, d.ts);
      assert series[..k + 1] == series[..k] + [d];
      forall i | 0 <= i < n && i != idx
        ensures IsDenseBucket(series[..k + 1], project, service, n, start, end, i, buckets[i])
      {
        DenseOtherBucket(series[..k], d, project, service, n, start, end, i, buckets[i]);
      }
      DenseSameBucket(series[..k], d, project, service, n, start, end, idx, buckets[idx]);
      buckets[idx] := buckets[idx].(m := Raise(buckets[idx].m, d.m));
    }
    assert series[..|series|] == series;
    result := buckets[..];
  }

  // ---------------------------------------------------------------- all services

  /** The n points of one service, by whichever branch its series takes. */
  ghost predicate IsBlock(series: seq<TimedContainer>, n: int, start: int, end: int, block: seq<TimedContainer>)
    requires n > 0 && start < end
  {
    && series != [] && |block| == n
    && var (project, service) := (series[0].m.project, series[0].m.service);
      forall i :: 0 <= i < n ==>
        if |series| <= n then IsSparseBucket(series, project, service, n, start, end, i, block[i])
        else IsDenseBucket(series, project, service, n, start, end, i, block[i])
  }

  function Flatten(blocks: seq<seq<TimedContainer>>): seq<TimedContainer>
    decreases |blocks|
  {
    if blocks == [] then [] else Flatten(blocks[..|blocks| - 1]) + blocks[|blocks| - 1]
  }

  /** One block of n points for each key, in the order the keys are first seen. */
  ghost predicate AreBlocks(data: seq<TimedContainer>, n: int, start: int, end: int, blocks: seq<seq<TimedContainer>>)
    requires n > 0 && start < end
  {
    && |blocks| == |KeysOf(data)|
    && forall b :: 0 <= b < |blocks| ==> IsBlock(SeriesOf(data, KeysOf(data)[b]), n, start, end, blocks[b])
  }

  /** The place of point i of block b. */
  function Place(b: nat, n: nat, i: nat): nat { b * n + i }

  lemma PlaceOneMore(b: nat, n: nat, i: nat)
    ensures Place(b, n, i) == Place(b, n, 0) + i
    ensures Place(b + 1, n, 0) == Place(b, n, 0) + n
  {
    assert (b + 1) * n == b * n + n;
  }

  lemma {:induction false} FlattenLength(blocks: seq<seq<TimedContainer>>, n: nat)
    requires forall b :: 0 <= b < |blocks| ==> |blocks[b]| == n
    ensures |Flatten(blocks)| == Place(|blocks|, n, 0)
    decreases |blocks|
  {
    if blocks != [] {
      FlattenLength(blocks[..|blocks| - 1], n);
      PlaceOneMore(|blocks| - 1, n, 0);
    }
  }

  /** Blocks of n points keep their places. */
  lemma {:induction false} FlattenAt(blocks: seq<seq<TimedContainer>>, n: nat, b: nat, i: nat)
    requires (forall a :: 0 <= a < |blocks| ==> |blocks[a]| == n) && b < |blocks| && i < n
    ensures Place(b, n, i) < |Flatten(blocks)| && Flatten(blocks)[Place(b, n, i)] == blocks[b][i]
    decreases |blocks|
  {
    var m := |blocks| - 1;
    if b < m {
      FlattenAt(blocks[..m], n, b, i);
    } else {
      FlattenLength(blocks[..m], n);
      PlaceOneMore(m, n, i);
    }
  }

  lemma BlockPlaces(data: seq<TimedContainer>, n: int, start: int, end: int, blocks: seq<seq<TimedContainer>>)
    requires n > 0 && start < end && AreBlocks(data, n, start, end, blocks)
    ensures |Flatten(blocks)| == Place(|blocks|, n, 0)
    ensures forall b: nat, i: nat :: b < |blocks| && i < n ==>
      Place(b, n, i) < |Flatten(blocks)| && i < |blocks[b]| && Flatten(blocks)[Place(b, n, i)] == blocks[b][i]
  {
    forall b | 0 <= b < |blocks| ensures |blocks[b]| == n {
      assert IsBlock(SeriesOf(data, KeysOf(data)[b]), n, start, end, blocks[b]);
    }
    FlattenLength(blocks, n);
    forall b: nat, i: nat | b < |blocks| && i < n
      ensures Place(b, n, i) < |Flatten(blocks)| && Flatten(blocks)[Place(b, n, i)] == blocks[b][i]
    {
      FlattenAt(blocks, n, b, i);
    }
  }

  ghost predicate IsContainerDownsampling(data: seq<TimedContainer>, n: int, start: int, end: int,
                                          out: seq<TimedContainer>)
  {
    if n <= 0 || data == [] || end <= start then out == data
    else exists blocks :: AreBlocks(data, n, start, end, blocks) && out == Flatten(blocks)
  }

  /** The key, first project and first service of every service found, and its points. */
  method GroupByService(data: seq<TimedContainer>)
    returns (bySvc: map<string, seq<TimedContainer>>, order: seq<string>, svcInfo: seq<(string, string)>)
    ensures order == KeysOf(data) && |svcInfo| == |order|
    ensures forall k :: k in bySvc <==> k in order
    ensures forall k :: k in order ==> bySvc[k] == SeriesOf(data, k) && bySvc[k] != []
    ensures forall b :: 0 <= b < |order| ==> svcInfo[b] == (bySvc[order[b]][0].m.project, bySvc[order[b]][0].m.service)
  {
    bySvc, order, svcInfo := map[], [], [];
    assert data[..0] == [];
    for i := 0 to |data|
      invariant order == KeysOf(data[..i]) && |svcInfo| == |order|
      invariant forall k :: k in bySvc <==> k in order
      invariant forall k :: k in order ==> bySvc[k] == SeriesOf(data[..i], k) && bySvc[k] != []
      invariant forall k :: k !in order ==> SeriesOf(data[..i], k) == []
      invariant forall b :: 0 <= b < |order| ==>
        svcInfo[b] == (bySvc[order[b]][0].m.project, bySvc[order[b]][0].m.service)
    {
      var m := data[i];
      var key := KeyOf(m);
      assert data[..i + 1][..i] == data[..i];
      if key !in bySvc {
        order := order + [key];
        svcInfo := svcInfo + [(m.m.project, m.m.service)];
        bySvc := bySvc[key := [m]];
      } else {
        bySvc := bySvc[key := bySvc[key] + [m]];
      }
    }
    assert data[..|data|] == data;
  }

  method Block(series: seq<TimedContainer>, project: string, service: string, n: int, start: int, end: int)
    returns (block: seq<TimedContainer>)
    requires n > 0 && start < end && series != [] && project == series[0].m.project && service == series[0].m.service
    ensures IsBlock(series, n, start, end, block)
  {
    if |series| <= n {
      block := SparseBuckets(series, project, service, n, start, end);
    } else {
      block := DenseBuckets(series, project, service, n, start, end);
    }
  }

  method DownsampleContainers(data: seq<TimedContainer>, n: int, start: int, end: int)
    returns (out: seq<TimedContainer>)
    ensures IsContainerDownsampling(data, n, start, end, out)
  {
    if n <= 0 || |data| == 0 {
      return data;
    }
    DurPositive(n, start, end);
    if BucketDur(n, start, end) <= 0.0 {
      return data;
    }
    ghost var blocks;
    out, blocks := AllBlocks(data, n, start, end);
  }

  method AllBlocks(data: seq<TimedContainer>, n: int, start: int, end: int)
    returns (out: seq<TimedContainer>, ghost blocks: seq<seq<TimedContainer>>)
    requires n > 0 && start < end
    ensures AreBlocks(data, n, start, end, blocks) && out == Flatten(blocks)
  {
    var bySvc, order, svcInfo := GroupByService(data);
    out, blocks := [], [];
    for b := 0 to |order|
      invariant |blocks| == b && out == Flatten(blocks)
      invariant forall a :: 0 <= a < b ==> IsBlock(bySvc[order[a]], n, start, end, blocks[a])
    {
      var block := Block(bySvc[order[b]], svcInfo[b].0, svcInfo[b].1, n, start, end);
      out := out + block;
      blocks := blocks + [block];
    }
  }

  // ---------------------------------------------------------------- both stages

  /** Row j is in the queried range, in this group of whole seconds, and of this service. */
  ghost predicate Grouped(raw: seq<TimedContainer>, start: int, end: int, d: int, g: TimedContainer, j: int)
    requires d >= 1
  {
    && 0 <= j < |raw| && start <= raw[j].ts <= end && GroupTime(start, d, raw[j].ts) == g.ts
    && raw[j].m.project == g.m.project && raw[j].m.service == g.m.service
  }

  /** What the grouped query returns, as far as CPU and memory go: one row for every group and
      service that has rows in range, with the largest value of each among them. */
  ghost predicate IsContainerGrouping(raw: seq<TimedContainer>, start: int, end: int, d: int,
                                      groups: seq<TimedContainer>)
    requires d >= 1
  {
    && (forall j {:trigger HasGroup(raw, start, end, d, groups, j)} ::
          0 <= j < |raw| && start <= raw[j].ts <= end ==> HasGroup(raw, start, end, d, groups, j))
    && (forall x {:trigger IsGroupRow(raw, start, end, d, groups[x])} ::
          0 <= x < |groups| ==> IsGroupRow(raw, start, end, d, groups[x]))
    && (forall x, y :: 0 <= x < y < |groups| ==> !SameGroup(groups[x], groups[y]))
  }

  predicate SameGroup(g: TimedContainer, h: TimedContainer) {
    g.ts == h.ts && g.m.project == h.m.project && g.m.service == h.m.service
  }

  ghost predicate HasGroup(raw: seq<TimedContainer>, start: int, end: int, d: int, groups: seq<TimedContainer>, j: int)
    requires d >= 1
  {
    exists x :: 0 <= x < |groups| && Grouped(raw, start, end, d, groups[x], j)
  }

  ghost predicate IsGroupRow(raw: seq<TimedContainer>, start: int, end: int, d: int, g: TimedContainer)
    requires d >= 1
  {
    forall f :: IsGroupPeak(raw, start, end, d, g, f, Get(f, g.m))
  }

  /** v is the largest value of the field over the rows of the group. */
  ghost predicate IsGroupPeak(raw: seq<TimedContainer>, start: int, end: int, d: int, g: TimedContainer, f: Peaked,
                              v: real)
    requires d >= 1
  {
    && (exists j :: Grouped(raw, start, end, d, g, j) && Get(f, raw[j].m) == v)
    && (forall j :: Grouped(raw, start, end, d, g, j) ==> Get(f, raw[j].m) <= v)
  }

  /** A bucket without points is all zero under the service's name, in either branch. */
  lemma EmptyBucketIsZero(series: seq<TimedContainer>, n: int, start: int, end: int, block: seq<TimedContainer>, i: int)
    requires n > 0 && start < end && IsBlock(series, n, start, end, block) && 0 <= i < n
    requires forall j :: 0 <= j < |series| ==> BucketIndex(n, start, end, series[j].ts) != i
    ensures block[i].m == ContainerMetrics(series[0].m.project, series[0].m.service, 0.0, 0, 0.0,
                                           ContainerRest(0.0, 0, 0, 0, 0, 0, 0))
  {
    if |series| <= n {
      assert IsSparseBucket(series, series[0].m.project, series[0].m.service, n, start, end, i, block[i]);
      assert EmptyBucket(series, n, start, end, i);
    } else {
      assert IsDenseBucket(series, series[0].m.project, series[0].m.service, n, start, end, i, block[i]);
      forall f ensures Get(f, block[i].m) == 0.0 {
        assert IsPeakFromZero(series, n, start, end, i, f, Get(f, block[i].m));
      }
      assert Get(Cpu, block[i].m) == 0.0 && Get(MemUsage, block[i].m) == 0.0 && Get(MemPercent, block[i].m) == 0.0;
    }
  }

  // ---------------------------------------------------------------- the grouped query

  /** The row of the group that this row falls in, holding this row's values. */
  function GroupOf(p: TimedContainer, start: int, d: int): TimedContainer
    requires d >= 1
  {
    p.(ts := GroupTime(start, d, p.ts))
  }

  /** Runs the grouped query. The loop over the rows stands for the database's GROUP BY. */
  method QueryContainerMetricsGrouped(raw: seq<TimedContainer>, start: int, end: int, bucketDur: int)
    returns (out: seq<TimedContainer>)
    ensures IsContainerGrouping(raw, start, end, if bucketDur <= 0 then 1 else bucketDur, out)
  {
    var d := if bucketDur <= 0 then 1 else bucketDur;
    out := [];
    for k := 0 to |raw|
      invariant IsContainerGrouping(raw[..k], start, end, d, out)
    {
      var p := raw[k];
      assert raw[..k + 1] == raw[..k] + [p];
      if start <= p.ts <= end {
        var g := GroupOf(p, start, d);
        var x := FindGroup(out, g);
        if x < |out| {
          GroupingRaises(raw[..k], start, end, d, out, p, x);
          out := out[x := out[x].(m := Raise(out[x].m, g.m))];
        } else {
          GroupingAppends(raw[..k], start, end, d, out, p);
          out := out + [g];
        }
      } else {
        GroupingSkips(raw[..k], start, end, d, out, p);
      }
    }
    assert raw[..|raw|] == raw;
  }

  method FindGroup(groups: seq<TimedContainer>, g: TimedContainer) returns (x: nat)
    ensures x <= |groups| && (x < |groups| ==> SameGroup(groups[x], g))
    ensures x == |groups| ==> forall y :: 0 <= y < |groups| ==> !SameGroup(groups[y], g)
  {
    for i := 0 to |groups|
      invariant forall y :: 0 <= y < i ==> !SameGroup(groups[y], g)
    {
      if SameGroup(groups[i], g) {
        return i;
      }
    }
    return |groups|;
  }

  /** A row outside the range or of another group leaves a group as it is. */
  lemma RowElsewhere(raw: seq<TimedContainer>, start: int, end: int, d: int, g: TimedContainer, p: TimedContainer)
    requires d >= 1 && IsGroupRow(raw, start, end, d, g)
    requires start <= p.ts <= end ==> !SameGroup(g, GroupOf(p, start, d))
    ensures IsGroupRow(raw + [p], start, end, d, g)
  {
    var more := raw + [p];
    forall f ensures IsGroupPeak(more, start, end, d, g, f, Get(f, g.m)) {
      assert IsGroupPeak(raw, start, end, d, g, f, Get(f, g.m));
      var j :| Grouped(raw, start, end, d, g, j) && Get(f, raw[j].m) == Get(f, g.m);
      assert Grouped(more, start, end, d, g, j) && more[j] == raw[j];
      forall i | Grouped(more, start, end, d, g, i) ensures Get(f, more[i].m) <= Get(f, g.m) {
        assert i < |raw| && Grouped(raw, start, end, d, g, i);
      }
    }
  }

  /** A row of the group raises its values to its own. */
  lemma RowRaises(raw: seq<TimedContainer>, start: int, end: int, d: int, g: TimedContainer, p: TimedContainer)
    requires d >= 1 && IsGroupRow(raw, start, end, d, g) && start <= p.ts <= end && SameGroup(g, GroupOf(p, start, d))
    ensures IsGroupRow(raw + [p], start, end, d, g.(m := Raise(g.m, p.m)))
  {
    var more, h := raw + [p], g.(m := Raise(g.m, p.m));
    forall f ensures IsGroupPeak(more, start, end, d, h, f, Get(f, h.m)) {
      assert IsGroupPeak(raw, start, end, d, g, f, Get(f, g.m));
      var j :| Grouped(raw, start, end, d, g, j) && Get(f, raw[j].m) == Get(f, g.m);
      assert Grouped(more, start, end, d, h, j) && more[j] == raw[j];
      assert Grouped(more, start, end, d, h, |raw|) && more[|raw|] == p;
      assert Get(f, h.m) == if Get(f, p.m) > Get(f, g.m) then Get(f, p.m) else Get(f, g.m);
      forall i | Grouped(more, start, end, d, h, i) ensures Get(f, more[i].m) <= Get(f, h.m) {
        assert i < |raw| ==> Grouped(raw, start, end, d, g, i);
      }
    }
  }

  /** Every row in range still has its group, if the groups kept their place. */
  lemma GroupsStay(raw: seq<TimedContainer>, start: int, end: int, d: int, groups: seq<TimedContainer>,
                   p: TimedContainer, more: seq<TimedContainer>)
    requires d >= 1 && IsContainerGrouping(raw, start, end, d, groups) && |groups| <= |more|
    requires forall x :: 0 <= x < |groups| ==> SameGroup(groups[x], more[x])
    requires start <= p.ts <= end ==> exists x :: 0 <= x < |more| && SameGroup(more[x], GroupOf(p, start, d))
    ensures forall j :: 0 <= j < |raw| + 1 && start <= (raw + [p])[j].ts <= end ==>
      HasGroup(raw + [p], start, end, d, more, j)
  {
    forall j | 0 <= j < |raw| + 1 && start <= (raw + [p])[j].ts <= end
      ensures HasGroup(raw + [p], start, end, d, more, j)
    {
      if j < |raw| {
        assert HasGroup(raw, start, end, d, groups, j);
        var x :| 0 <= x < |groups| && Grouped(raw, start, end, d, groups[x], j);
        assert SameGroup(groups[x], more[x]) && Grouped(raw + [p], start, end, d, more[x], j);
      } else {
        var x :| 0 <= x < |more| && SameGroup(more[x], GroupOf(p, start, d));
        assert Grouped(raw + [p], start, end, d, more[x], j);
      }
    }
  }

  lemma GroupingSkips(raw: seq<TimedContainer>, start: int, end: int, d: int, groups: seq<TimedContainer>,
                      p: TimedContainer)
    requires d >= 1 && IsContainerGrouping(raw, start, end, d, groups) && !(start <= p.ts <= end)
    ensures IsContainerGrouping(raw + [p], start, end, d, groups)
  {
    GroupsStay(raw, start, end, d, groups, p, groups);
    forall x | 0 <= x < |groups| ensures IsGroupRow(raw + [p], start, end, d, groups[x]) {
      assert IsGroupRow(raw, start, end, d, groups[x]);
      RowElsewhere(raw, start, end, d, groups[x], p);
    }
  }

  lemma GroupingAppends(raw: seq<TimedContainer>, start: int, end: int, d: int, groups: seq<TimedContainer>,
                        p: TimedContainer)
    requires d >= 1 && IsContainerGrouping(raw, start, end, d, groups) && start <= p.ts <= end
    requires forall x :: 0 <= x < |groups| ==> !SameGroup(groups[x], GroupOf(p, start, d))
    ensures IsContainerGrouping(raw + [p], start, end, d, groups + [GroupOf(p, start, d)])
  {
    var g := GroupOf(p, start, d);
    assert (groups + [g])[|groups|] == g;
    GroupsStay(raw, start, end, d, groups, p, groups + [g]);
    FirstOfGroup(raw, start, end, d, groups, p);
    forall x | 0 <= x < |groups| + 1 ensures IsGroupRow(raw + [p], start, end, d, (groups + [g])[x]) {
      if x < |groups| {
        assert IsGroupRow(raw, start, end, d, groups[x]);
        RowElsewhere(raw, start, end, d, groups[x], p);
      }
    }
  }

  /** A row whose group is not there yet is the only one of its group. */
  lemma FirstOfGroup(raw: seq<TimedContainer>, start: int, end: int, d: int, groups: seq<TimedContainer>,
                     p: TimedContainer)
    requires d >= 1 && IsContainerGrouping(raw, start, end, d, groups) && start <= p.ts <= end
    requires forall x :: 0 <= x < |groups| ==> !SameGroup(groups[x], GroupOf(p, start, d))
    ensures IsGroupRow(raw + [p], start, end, d, GroupOf(p, start, d))
  {
    var more, g := raw + [p], GroupOf(p, start, d);
    assert Grouped(more, start, end, d, g, |raw|) && more[|raw|] == p;
    forall j | 0 <= j < |raw| && start <= raw[j].ts <= end ensures !Grouped(raw, start, end, d, g, j) {
      assert HasGroup(raw, start, end, d, groups, j);
      var x :| 0 <= x < |groups| && Grouped(raw, start, end, d, groups[x], j);
      assert !SameGroup(groups[x], g);
    }
    forall j | Grouped(more, start, end, d, g, j) ensures j == |raw| {
      assert j < |raw| ==> Grouped(raw, start, end, d, g, j);
    }
    forall f ensures IsGroupPeak(more, start, end, d, g, f, Get(f, g.m)) {
      assert Get(f, more[|raw|].m) == Get(f, g.m);
    }
  }

  lemma GroupingRaises(raw: seq<TimedContainer>, start: int, end: int, d: int, groups: seq<TimedContainer>,
                       p: TimedContainer, x: nat)
    requires d >= 1 && IsContainerGrouping(raw, start, end, d, groups) && start <= p.ts <= end
    requires x < |groups| && SameGroup(groups[x], GroupOf(p, start, d))
    ensures IsContainerGrouping(raw + [p], start, end, d, groups[x := groups[x].(m := Raise(groups[x].m, p.m))])
  {
    var more := groups[x := groups[x].(m := Raise(groups[x].m, p.m))];
    assert SameGroup(more[x], GroupOf(p, start, d));
    GroupsStay(raw, start, end, d, groups, p, more);
    forall y | 0 <= y < |more| ensures IsGroupRow(raw + [p], start, end, d, more[y]) {
      assert IsGroupRow(raw, start, end, d, groups[y]);
      if y == x {
        RowRaises(raw, start, end, d, groups[x], p);
      } else {
        assert if x < y then !SameGroup(groups[x], groups[y]) else !SameGroup(groups[y], groups[x]);
        RowElsewhere(raw, start, end, d, groups[y], p);
      }
    }
    forall y, z | 0 <= y < z < |more| ensures !SameGroup(more[y], more[z]) { assert !SameGroup(groups[y], groups[z]); }
  }

  // ---------------------------------------------------------------- what both stages keep

  /** A series keeps the peaks of CPU, and if it is long those of memory: a bucket's
      value is at least that of every point in it. */
  lemma BlockCovers(series: seq<TimedContainer>, n: int, start: int, end: int, block: seq<TimedContainer>,
                    p: TimedContainer, f: Peaked)
    requires n > 0 && start < end && IsBlock(series, n, start, end, block) && p in series
    requires f == Cpu || |series| > n
    ensures Get(f, block[BucketIndex(n, start, end, p.ts)].m) >= Get(f, p.m)
  {
    var i := BucketIndex(n, start, end, p.ts);
    var x :| 0 <= x < |series| && series[x] == p;
    assert Falls(series, n, start, end, i, x);
    if |series| <= n {
      assert IsSparseBucket(series, series[0].m.project, series[0].m.service, n, start, end, i, block[i]);
    } else {
      assert IsDenseBucket(series, series[0].m.project, series[0].m.service, n, start, end, i, block[i]);
      assert IsPeakFromZero(series, n, start, end, i, f, Get(f, block[i].m));
      assert Get(f, series[x].m) == Get(f, p.m);
    }
  }

  /** In either branch a bucket's value of a field is zero or that of a point in it. */
  lemma BlockAttains(series: seq<TimedContainer>, n: int, start: int, end: int, block: seq<TimedContainer>, i: int,
                     f: Peaked)
    requires n > 0 && start < end && IsBlock(series, n, start, end, block) && 0 <= i < n
    ensures Get(f, block[i].m) == 0.0
      || exists x :: Falls(series, n, start, end, i, x) && Get(f, series[x].m) == Get(f, block[i].m)
  {
    if |series| <= n {
      assert IsSparseBucket(series, series[0].m.project, series[0].m.service, n, start, end, i, block[i]);
      if !EmptyBucket(series, n, start, end, i) {
        var j :| IsBusiest(series, n, start, end, i, j) && block[i].m == series[j].m;
        assert Falls(series, n, start, end, i, j);
      }
    } else {
      assert IsDenseBucket(series, series[0].m.project, series[0].m.service, n, start, end, i, block[i]);
      assert IsPeakFromZero(series, n, start, end, i, f, Get(f, block[i].m));
    }
  }

  /** A downsampled history query: the grouped rows, and the points made of them. */
  ghost predicate IsContainerHistory(raw: seq<TimedContainer>, n: int, start: int, end: int,
                                     groups: seq<TimedContainer>, out: seq<TimedContainer>)
    requires n > 0 && start < end
  {
    && IsContainerGrouping(raw, start, end, GroupDur(n, start, end), groups)
    && IsContainerDownsampling(groups, n, start, end, out)
  }

  /** Every point of a block carries the key of its series. */
  lemma BlockHasKey(data: seq<TimedContainer>, key: string, n: int, start: int, end: int, block: seq<TimedContainer>,
                    i: int)
    requires n > 0 && start < end && IsBlock(SeriesOf(data, key), n, start, end, block) && 0 <= i < n
    ensures KeyOf(block[i]) == key
  {
    var series := SeriesOf(data, key);
    SeriesHasItsPoints(data, key);
    assert KeyOf(series[0]) == key;
    var project, service := series[0].m.project, series[0].m.service;
    if |series| <= n {
      assert IsSparseBucket(series, project, service, n, start, end, i, block[i]);
      if !EmptyBucket(series, n, start, end, i) {
        var j :| IsBusiest(series, n, start, end, i, j) && block[i].m == series[j].m;
        assert KeyOf(series[j]) == key;
      }
    } else {
      assert IsDenseBucket(series, project, service, n, start, end, i, block[i]);
    }
  }

  /** Service b has its n points in its place, all under its key. */
  lemma HistoryPlaces(groups: seq<TimedContainer>, n: int, start: int, end: int, out: seq<TimedContainer>)
    returns (blocks: seq<seq<TimedContainer>>)
    requires n > 0 && start < end && groups != [] && IsContainerDownsampling(groups, n, start, end, out)
    ensures AreBlocks(groups, n, start, end, blocks) && |out| == Place(|KeysOf(groups)|, n, 0)
    ensures forall b: nat, i: nat :: b < |KeysOf(groups)| && i < n ==> IsPoint(groups, n, blocks, out, b, i)
  {
    blocks :| AreBlocks(groups, n, start, end, blocks) && out == Flatten(blocks);
    BlockPlaces(groups, n, start, end, blocks);
    forall b: nat, i: nat | b < |KeysOf(groups)| && i < n ensures IsPoint(groups, n, blocks, out, b, i) {
      BlockHasKey(groups, KeysOf(groups)[b], n, start, end, blocks[b], i);
    }
  }

  ghost predicate IsPoint(groups: seq<TimedContainer>, n: nat, blocks: seq<seq<TimedContainer>>,
                          out: seq<TimedContainer>, b: nat, i: nat)
  {
    && b < |blocks| == |KeysOf(groups)| && i < |blocks[b]| == n && Place(b, n, i) < |out|
    && out[Place(b, n, i)] == blocks[b][i] && KeyOf(out[Place(b, n, i)]) == KeysOf(groups)[b]
  }

  /** There are n points for each service with a row in range, in one place, under its key. */
  lemma PointsOfServices(raw: seq<TimedContainer>, n: int, start: int, end: int, groups: seq<TimedContainer>,
                         out: seq<TimedContainer>)
    requires n > 0 && start < end && IsContainerHistory(raw, n, start, end, groups, out)
    ensures |out| == Place(|KeysOf(groups)|, n, 0)
    ensures forall b: nat, i: nat :: b < |KeysOf(groups)| && i < n ==>
      Place(b, n, i) < |out| && KeyOf(out[Place(b, n, i)]) == KeysOf(groups)[b]
    ensures forall k :: k in KeysOf(groups) <==> exists j :: InRange(raw, start, end, k, j)
  {
    if groups != [] {
      var blocks := HistoryPlaces(groups, n, start, end, out);
      forall b: nat, i: nat | b < |KeysOf(groups)| && i < n
        ensures Place(b, n, i) < |out| && KeyOf(out[Place(b, n, i)]) == KeysOf(groups)[b]
      {
        assert IsPoint(groups, n, blocks, out, b, i);
      }
    }
    ServicesInRange(raw, start, end, GroupDur(n, start, end), groups);
  }

  /** Row j is in the queried range and of the service with this key. */
  ghost predicate InRange(raw: seq<TimedContainer>, start: int, end: int, key: string, j: int) {
    0 <= j < |raw| && start <= raw[j].ts <= end && KeyOf(raw[j]) == key
  }

  lemma ServicesInRange(raw: seq<TimedContainer>, start: int, end: int, d: int, groups: seq<TimedContainer>)
    requires d >= 1 && IsContainerGrouping(raw, start, end, d, groups)
    ensures forall k :: k in KeysOf(groups) <==> exists j :: InRange(raw, start, end, k, j)
  {
    KeysAreThosePresent(groups);
    forall k | k in KeysOf(groups) ensures exists j :: InRange(raw, start, end, k, j) {
      var x :| FirstSeen(groups, k, x);
      assert IsGroupRow(raw, start, end, d, groups[x]);
      assert IsGroupPeak(raw, start, end, d, groups[x], Cpu, Get(Cpu, groups[x].m));
      var j :| Grouped(raw, start, end, d, groups[x], j) && Get(Cpu, raw[j].m) == Get(Cpu, groups[x].m);
      assert InRange(raw, start, end, k, j);
    }
    forall k, j | InRange(raw, start, end, k, j) ensures k in KeysOf(groups) {
      assert HasGroup(raw, start, end, d, groups, j);
      var x :| 0 <= x < |groups| && Grouped(raw, start, end, d, groups[x], j);
      assert KeyOf(groups[x]) == k;
    }
  }

  /** No row is lost: among its service's points, that of its bucket or the one before shows at
      least its value of every field that its series keeps. */
  lemma RowsAreCovered(raw: seq<TimedContainer>, n: int, start: int, end: int, groups: seq<TimedContainer>,
                       out: seq<TimedContainer>, j: nat)
    returns (b: nat, i: nat)
    requires n > 0 && start < end && IsContainerHistory(raw, n, start, end, groups, out)
    requires j < |raw| && start <= raw[j].ts <= end
    ensures b < |KeysOf(groups)| && i < n && Place(b, n, i) < |out|
    ensures KeysOf(groups)[b] == KeyOf(raw[j]) == KeyOf(out[Place(b, n, i)])
    ensures BucketIndex(n, start, end, raw[j].ts) - 1 <= i <= BucketIndex(n, start, end, raw[j].ts)
    ensures forall f :: f == Cpu || |SeriesOf(groups, KeyOf(raw[j]))| > n ==>
      Get(f, out[Place(b, n, i)].m) >= Get(f, raw[j].m)
  {
    var d, key := GroupDur(n, start, end), KeyOf(raw[j]);
    assert HasGroup(raw, start, end, d, groups, j);
    var x :| 0 <= x < |groups| && Grouped(raw, start, end, d, groups[x], j);
    var blocks := HistoryPlaces(groups, n, start, end, out);
    KeysAreThosePresent(groups);
    b :| 0 <= b < |KeysOf(groups)| && KeysOf(groups)[b] == key;
    SeriesHasItsPoints(groups, key);
    GroupShiftsAtMostOneBucket(n, start, end, raw[j].ts);
    i := BucketIndex(n, start, end, groups[x].ts);
    assert IsPoint(groups, n, blocks, out, b, i);
    forall f | f == Cpu || |SeriesOf(groups, key)| > n ensures Get(f, blocks[b][i].m) >= Get(f, raw[j].m) {
      BlockCovers(SeriesOf(groups, key), n, start, end, blocks[b], groups[x], f);
      assert IsGroupRow(raw, start, end, d, groups[x]);
      assert IsGroupPeak(raw, start, end, d, groups[x], f, Get(f, groups[x].m));
    }
  }

  /** Nothing is made up: a value that a point shows is zero, or that of a row in range, of the
      point's service, that belongs to this bucket or the next. */
  lemma ValuesAreAttained(raw: seq<TimedContainer>, n: int, start: int, end: int, groups: seq<TimedContainer>,
                          out: seq<TimedContainer>, b: nat, i: nat, f: Peaked)
    requires n > 0 && start < end && IsContainerHistory(raw, n, start, end, groups, out)
    requires b < |KeysOf(groups)| && i < n
    ensures Place(b, n, i) < |out|
    ensures Get(f, out[Place(b, n, i)].m) == 0.0
      || exists j :: Attains(raw, n, start, end, KeysOf(groups)[b], i, f, Get(f, out[Place(b, n, i)].m), j)
  {
    var blocks := HistoryPlaces(groups, n, start, end, out);
    assert IsPoint(groups, n, blocks, out, b, i);
    BlockValueIsAttained(raw, n, start, end, groups, KeysOf(groups)[b], blocks[b], i, f);
  }

  lemma BlockValueIsAttained(raw: seq<TimedContainer>, n: int, start: int, end: int, groups: seq<TimedContainer>,
                             key: string, block: seq<TimedContainer>, i: nat, f: Peaked)
    requires n > 0 && start < end && IsContainerGrouping(raw, start, end, GroupDur(n, start, end), groups)
    requires IsBlock(SeriesOf(groups, key), n, start, end, block) && i < n
    ensures Get(f, block[i].m) == 0.0 || exists j :: Attains(raw, n, start, end, key, i, f, Get(f, block[i].m), j)
  {
    var series := SeriesOf(groups, key);
    BlockAttains(series, n, start, end, block, i, f);
    if Get(f, block[i].m) != 0.0 {
      var x :| Falls(series, n, start, end, i, x) && Get(f, series[x].m) == Get(f, block[i].m);
      SeriesHasItsPoints(groups, key);
      assert series[x] in series;
      var j := GroupValueIsARows(raw, n, start, end, groups, series[x], f);
      assert Attains(raw, n, start, end, key, i, f, Get(f, block[i].m), j);
    }
  }

  /** A value of a grouped row is that of a row of its service, of its bucket or the next. */
  lemma GroupValueIsARows(raw: seq<TimedContainer>, n: int, start: int, end: int, groups: seq<TimedContainer>,
                          g: TimedContainer, f: Peaked) returns (j: int)
    requires n > 0 && start < end && IsContainerGrouping(raw, start, end, GroupDur(n, start, end), groups)
    requires g in groups
    ensures Attains(raw, n, start, end, KeyOf(g), BucketIndex(n, start, end, g.ts), f, Get(f, g.m), j)
  {
    var d := GroupDur(n, start, end);
    assert IsGroupRow(raw, start, end, d, g);
    assert IsGroupPeak(raw, start, end, d, g, f, Get(f, g.m));
    j :| Grouped(raw, start, end, d, g, j) && Get(f, raw[j].m) == Get(f, g.m);
    GroupShiftsAtMostOneBucket(n, start, end, raw[j].ts);
  }

  ghost predicate Attains(raw: seq<TimedContainer>, n: int, start: int, end: int, key: string, i: int, f: Peaked,
                          v: real, j: int)
    requires n > 0 && start < end
  {
    && 0 <= j < |raw| && start <= raw[j].ts <= end && KeyOf(raw[j]) == key && Get(f, raw[j].m) == v
    && i <= BucketIndex(n, start, end, raw[j].ts) <= i + 1
  }

  /** A service's peak over the range of a field that its series keeps is, when not negative,
      exactly the largest among its points. */
  lemma PeakIsKept(raw: seq<TimedContainer>, n: int, start: int, end: int, groups: seq<TimedContainer>,
                   out: seq<TimedContainer>, j: nat, f: Peaked)
    returns (b: nat, i: nat)
    requires n > 0 && start < end && IsContainerHistory(raw, n, start, end, groups, out)
    requires j < |raw| && start <= raw[j].ts <= end && Get(f, raw[j].m) >= 0.0
    requires forall k :: InRange(raw, start, end, KeyOf(raw[j]), k) ==> Get(f, raw[k].m) <= Get(f, raw[j].m)
    requires f == Cpu || |SeriesOf(groups, KeyOf(raw[j]))| > n
    ensures b < |KeysOf(groups)| && i < n && KeysOf(groups)[b] == KeyOf(raw[j])
    ensures forall c: nat :: c < n ==> Place(b, n, c) < |out| && Get(f, out[Place(b, n, c)].m) <= Get(f, raw[j].m)
    ensures Get(f, out[Place(b, n, i)].m) == Get(f, raw[j].m)
  {
    b, i := RowsAreCovered(raw, n, start, end, groups, out, j);
    forall c: nat | c < n ensures Place(b, n, c) < |out| && Get(f, out[Place(b, n, c)].m) <= Get(f, raw[j].m) {
      ValuesAreAttained(raw, n, start, end, groups, out, b, c, f);
      if Get(f, out[Place(b, n, c)].m) != 0.0 {
        var k :| Attains(raw, n, start, end, KeysOf(groups)[b], c, f, Get(f, out[Place(b, n, c)].m), k);
        assert InRange(raw, start, end, KeyOf(raw[j]), k);
      }
    }
  }

  /** The point of service b for bucket i shows at least v of the field. */
  predicate ShowsAt(out: seq<TimedContainer>, n: nat, b: nat, i: nat, f: Peaked, v: real) {
    i < n && Place(b, n, i) < |out| && Get(f, out[Place(b, n, i)].m) >= v
  }

  /** The first row with the highest CPU of bucket i has at least v of the field. */
  ghost predicate BusiestHas(s: seq<TimedContainer>, n: int, start: int, end: int, i: nat, j: int, f: Peaked, v: real)
    requires n > 0 && start < end
  {
    i < n && IsBusiest(s, n, start, end, i, j) && Get(f, s[j].m) >= v
  }

  /** A history of a short series shows at least v of a field exactly when, in some bucket, the
      first of the grouped rows with the highest CPU has it. */
  lemma ShortSeriesShowsIff(raw: seq<TimedContainer>, n: int, start: int, end: int, groups: seq<TimedContainer>,
                            out: seq<TimedContainer>, b: nat, f: Peaked, v: real)
    requires n > 0 && start < end && IsContainerHistory(raw, n, start, end, groups, out)
    requires b < |KeysOf(groups)| && |SeriesOf(groups, KeysOf(groups)[b])| <= n && v > 0.0
    ensures (exists i: nat :: ShowsAt(out, n, b, i, f, v)) <==>
      exists i: nat, j :: BusiestHas(SeriesOf(groups, KeysOf(groups)[b]), n, start, end, i, j, f, v)
  {
    var series := SeriesOf(groups, KeysOf(groups)[b]);
    var blocks := HistoryPlaces(groups, n, start, end, out);
    forall i: nat | i < n
      ensures ShowsAt(out, n, b, i, f, v) <==> exists j :: BusiestHas(series, n, start, end, i, j, f, v)
    {
      assert IsPoint(groups, n, blocks, out, b, i);
      SparseShowsIff(series, series[0].m.project, series[0].m.service, n, start, end, i, blocks[b][i], f, v);
    }
    forall i: nat, j | BusiestHas(series, n, start, end, i, j, f, v) ensures ShowsAt(out, n, b, i, f, v) {}
  }

  lemma SparseShowsIff(s: seq<TimedContainer>, project: string, service: string, n: int, start: int, end: int, i: nat,
                       p: TimedContainer, f: Peaked, v: real)
    requires n > 0 && start < end && i < n && IsSparseBucket(s, project, service, n, start, end, i, p) && v > 0.0
    ensures Get(f, p.m) >= v <==> exists j :: BusiestHas(s, n, start, end, i, j, f, v)
  {
    if EmptyBucket(s, n, start, end, i) {
      forall j ensures !BusiestHas(s, n, start, end, i, j, f, v) { assert !Falls(s, n, start, end, i, j); }
    } else {
      var j :| IsBusiest(s, n, start, end, i, j) && p.m == s[j].m;
      assert Get(f, p.m) >= v ==> BusiestHas(s, n, start, end, i, j, f, v);
      forall k | BusiestHas(s, n, start, end, i, k, f, v) ensures k == j {
        assert Falls(s, n, start, end, i, k) && Falls(s, n, start, end, i, j);
      }
    }
  }
}
