/** Downsampled histories of a short series that do not show the service's memory peak: a bucket
    keeps the whole record with its highest CPU, whatever memory the others had. */
module ContainerMemory {
  import opened Buckets
  import opened DownsampleContainers

  /** Two rows of one service, in different groups of one bucket: the first has more CPU, the
      second more memory. */
  ghost predicate BusyAndLarge(a: TimedContainer, b: TimedContainer, n: int, start: int, end: int)
    requires n > 0 && start < end
  {
    var d := GroupDur(n, start, end);
    && n >= 2 && start <= a.ts <= end && start <= b.ts <= end
    && a.m.project == b.m.project && a.m.service == b.m.service
    && GroupTime(start, d, a.ts) != GroupTime(start, d, b.ts)
    && BucketIndex(n, start, end, GroupTime(start, d, a.ts)) == BucketIndex(n, start, end, GroupTime(start, d, b.ts))
    && a.m.cpu > b.m.cpu && 0 <= a.m.memUsage < b.m.memUsage
  }

  /** The group of one of the two rows holds its values. */
  ghost predicate IsOf(g: TimedContainer, a: TimedContainer, start: int, d: int)
    requires d >= 1
  {
    && g.ts == GroupTime(start, d, a.ts) && g.m.project == a.m.project && g.m.service == a.m.service
    && g.m.cpu == a.m.cpu && g.m.memUsage == a.m.memUsage
  }

  lemma GroupIsOfARow(a: TimedContainer, b: TimedContainer, start: int, end: int, d: int, g: TimedContainer)
    requires d >= 1 && GroupTime(start, d, a.ts) != GroupTime(start, d, b.ts) && IsGroupRow([a, b], start, end, d, g)
    ensures IsOf(g, a, start, d) || IsOf(g, b, start, d)
  {
    var raw := [a, b];
    assert IsGroupPeak(raw, start, end, d, g, Cpu, Get(Cpu, g.m));
    assert IsGroupPeak(raw, start, end, d, g, MemUsage, Get(MemUsage, g.m));
    var i :| Grouped(raw, start, end, d, g, i) && Get(Cpu, raw[i].m) == Get(Cpu, g.m);
    var j :| Grouped(raw, start, end, d, g, j) && Get(MemUsage, raw[j].m) == Get(MemUsage, g.m);
    assert i == j;
  }

  /** The grouped rows are those of the two, in either order; x is that of the first. */
  lemma TwoGroups(a: TimedContainer, b: TimedContainer, n: int, start: int, end: int, groups: seq<TimedContainer>)
    returns (x: nat)
    requires n > 0 && start < end && BusyAndLarge(a, b, n, start, end)
    requires IsContainerGrouping([a, b], start, end, GroupDur(n, start, end), groups)
    ensures var d := GroupDur(n, start, end);
      && |groups| == 2 && x < 2 && IsOf(groups[x], a, start, d)
      && forall z :: 0 <= z < 2 ==> IsOf(groups[z], a, start, d) || IsOf(groups[z], b, start, d)
  {
    var raw, d := [a, b], GroupDur(n, start, end);
    forall z | 0 <= z < |groups| ensures IsOf(groups[z], a, start, d) || IsOf(groups[z], b, start, d) {
      assert IsGroupRow(raw, start, end, d, groups[z]);
      GroupIsOfARow(a, b, start, end, d, groups[z]);
    }
    assert HasGroup(raw, start, end, d, groups, 0) && HasGroup(raw, start, end, d, groups, 1);
    x :| 0 <= x < |groups| && Grouped(raw, start, end, d, groups[x], 0);
    var y: nat :| 0 <= y < |groups| && Grouped(raw, start, end, d, groups[y], 1);
    if |groups| > 2 {
      NoThirdGroup(a, b, start, d, groups, x, y, 0);
      NoThirdGroup(a, b, start, d, groups, x, y, 1);
      NoThirdGroup(a, b, start, d, groups, x, y, 2);
    }
  }

  lemma NoThirdGroup(a: TimedContainer, b: TimedContainer, start: int, d: int, groups: seq<TimedContainer>,
                     x: nat, y: nat, z: nat)
    requires d >= 1 && x < |groups| && y < |groups| && z < |groups|
    requires IsOf(groups[x], a, start, d) && IsOf(groups[y], b, start, d)
    requires IsOf(groups[z], a, start, d) || IsOf(groups[z], b, start, d)
    requires forall u, v :: 0 <= u < v < |groups| ==> !SameGroup(groups[u], groups[v])
    ensures z == x || z == y
  {
    assert z < x ==> !SameGroup(groups[z], groups[x]);
    assert x < z ==> !SameGroup(groups[x], groups[z]);
    assert z < y ==> !SameGroup(groups[z], groups[y]);
    assert y < z ==> !SameGroup(groups[y], groups[z]);
  }

  lemma {:induction false} OneSeries(data: seq<TimedContainer>, key: string)
    requires data != [] && forall x :: 0 <= x < |data| ==> KeyOf(data[x]) == key
    ensures SeriesOf(data, key) == data && KeysOf(data) == [key]
    decreases |data|
  {
    if |data| > 1 {
      OneSeries(data[..|data| - 1], key);
    } else {
      assert data[..0] == [];
    }
  }

  /** Whatever order the database returns the groups in, no point of the history shows more memory
      than the first row had, although the second had more. */
  lemma MemoryPeakIsLost(a: TimedContainer, b: TimedContainer, n: int, start: int, end: int,
                         groups: seq<TimedContainer>, out: seq<TimedContainer>)
    requires n > 0 && start < end && BusyAndLarge(a, b, n, start, end)
    requires IsContainerHistory([a, b], n, start, end, groups, out)
    ensures |out| == n && forall i :: 0 <= i < n ==> out[i].m.memUsage <= a.m.memUsage < b.m.memUsage
  {
    var x := TwoGroups(a, b, n, start, end, groups);
    OneSeries(groups, KeyOf(a));
    OneBlock(groups, n, start, end, out, KeyOf(a));
    forall i | 0 <= i < n ensures out[i].m.memUsage <= a.m.memUsage {
      BusiestIsTheFirst(a, b, n, start, end, groups, x, i, out[i]);
    }
  }

  /** The history of one service with few groups. */
  lemma OneBlock(groups: seq<TimedContainer>, n: int, start: int, end: int, out: seq<TimedContainer>, key: string)
    requires n > 0 && start < end && 0 < |groups| <= n && KeysOf(groups) == [key] && SeriesOf(groups, key) == groups
    requires IsContainerDownsampling(groups, n, start, end, out)
    ensures |out| == n
    ensures forall i :: 0 <= i < n ==>
      IsSparseBucket(groups, groups[0].m.project, groups[0].m.service, n, start, end, i, out[i])
  {
    var blocks: seq<seq<TimedContainer>> :| AreBlocks(groups, n, start, end, blocks) && out == Flatten(blocks);
    FlattenOne(blocks);
    assert IsBlock(SeriesOf(groups, KeysOf(groups)[0]), n, start, end, out);
  }

  lemma FlattenOne(blocks: seq<seq<TimedContainer>>)
    requires |blocks| == 1
    ensures Flatten(blocks) == blocks[0]
  {
    assert blocks[..0] == [];
  }

  lemma BusiestIsTheFirst(a: TimedContainer, b: TimedContainer, n: int, start: int, end: int,
                          groups: seq<TimedContainer>, x: nat, i: int, p: TimedContainer)
    requires n > 0 && start < end && BusyAndLarge(a, b, n, start, end)
    requires var d := GroupDur(n, start, end);
      && x < |groups| && IsOf(groups[x], a, start, d)
      && forall z :: 0 <= z < |groups| ==> IsOf(groups[z], a, start, d) || IsOf(groups[z], b, start, d)
    requires IsSparseBucket(groups, groups[0].m.project, groups[0].m.service, n, start, end, i, p)
    ensures p.m.memUsage <= a.m.memUsage
  {
    if !EmptyBucket(groups, n, start, end, i) {
      var j :| IsBusiest(groups, n, start, end, i, j) && p.m == groups[j].m;
      assert Falls(groups, n, start, end, i, j);
      assert Falls(groups, n, start, end, i, x);
    }
  }

  // ---------------------------------------------------------------- such a history

  /** A row of one service. */
  function Row(ts: int, cpu: real, memUsage: int): TimedContainer {
    TimedContainer(ts, ContainerMetrics("p", "s", cpu, memUsage, 0.0, ZERO_REST))
  }

  /** In two buckets over three seconds, the rows of the last two seconds are such a pair. */
  lemma SuchRowsExist()
    ensures BusyAndLarge(Row(2, 2.0, 1), Row(3, 1.0, 9), 2, 0, 3)
  {
    GroupsShareABucket();
  }

  /** And every such pair of rows has a history. */
  lemma HistoryExists(a: TimedContainer, b: TimedContainer, n: int, start: int, end: int)
    returns (groups: seq<TimedContainer>, out: seq<TimedContainer>)
    requires n > 0 && start < end && BusyAndLarge(a, b, n, start, end)
    ensures IsContainerHistory([a, b], n, start, end, groups, out)
  {
    var d := GroupDur(n, start, end);
    var g, h := a.(ts := GroupTime(start, d, a.ts)), b.(ts := GroupTime(start, d, b.ts));
    groups := [g, h];
    GroupingOfTwo(a, b, start, end, d);
    var bucket := BucketIndex(n, start, end, g.ts);
    var block := seq(n, i requires 0 <= i < n =>
      TimedContainer(BucketTime(n, start, end, i), if i == bucket then a.m else ZeroMetrics(a.m.project, a.m.service)));
    forall i | 0 <= i < n
      ensures IsSparseBucket(groups, a.m.project, a.m.service, n, start, end, i, block[i])
    {
      if i == bucket {
        assert IsBusiest(groups, n, start, end, i, 0);
      }
    }
    OneSeries(groups, KeyOf(a));
    assert AreBlocks(groups, n, start, end, [block]);
    FlattenOne([block]);
    out := block;
  }

  lemma GroupingOfTwo(a: TimedContainer, b: TimedContainer, start: int, end: int, d: int)
    requires d >= 1 && start <= a.ts <= end && start <= b.ts <= end
    requires GroupTime(start, d, a.ts) != GroupTime(start, d, b.ts)
    ensures IsContainerGrouping([a, b], start, end, d,
      [a.(ts := GroupTime(start, d, a.ts)), b.(ts := GroupTime(start, d, b.ts))])
  {
    var raw, groups := [a, b], [a.(ts := GroupTime(start, d, a.ts)), b.(ts := GroupTime(start, d, b.ts))];
    forall j | 0 <= j < 2
      ensures HasGroup(raw, start, end, d, groups, j) && IsGroupRow(raw, start, end, d, groups[j])
    {
      assert Grouped(raw, start, end, d, groups[j], j);
    }
  }
}
