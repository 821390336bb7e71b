/** Merging a page of log history with the live entries of the detail view
    (internal/tui/detail.go, detail_log.go). */
module LogHistory {
  import opened Ring

  datatype Entry = Entry(ts: int, containerID: string, name: string, stream: string, message: string)

  const CAPACITY := 500

  function Reversed(s: seq<Entry>): seq<Entry> {
    seq(|s|, i requires 0 <= i < |s| => s[|s| - 1 - i])
  }

  // ---------------------------------------------------------------- redeploy separators

  function Separator(e: Entry): Entry {
    Entry(e.ts, e.containerID, e.name, "event", "── " + e.name + " redeployed ──")
  }

  /** j is the latest entry, other than an event, of this container name. */
  ghost predicate IsLatest(entries: seq<Entry>, name: string, j: int) {
    && 0 <= j < |entries| && entries[j].stream != "event" && entries[j].name == name
    && forall k :: j < k < |entries| && entries[k].stream != "event" ==> entries[k].name != name
  }

  /** After these entries, e is the first of its container name under a new ID. */
  ghost predicate Redeploys(entries: seq<Entry>, e: Entry) {
    e.stream != "event" && exists j :: IsLatest(entries, e.name, j) && entries[j].containerID != e.containerID
  }

  /** The entries with a separator before each redeploy; the flag marks the separators. */
  ghost function Marked(entries: seq<Entry>): seq<(Entry, bool)>
    decreases |entries|
  {
    if entries == [] then []
    else
      var init, e := entries[..|entries| - 1], entries[|entries| - 1];
      Marked(init) + (if Redeploys(init, e) then [(Separator(e), true)] else []) + [(e, false)]
  }

  function Plain(marked: seq<(Entry, bool)>): seq<Entry> {
    seq(|marked|, i requires 0 <= i < |marked| => marked[i].0)
  }

  /** Leaves out what is marked as a separator. */
  function Erase(marked: seq<(Entry, bool)>): seq<Entry>
    decreases |marked|
  {
    if marked == [] then []
    else
      var m := marked[|marked| - 1];
      Erase(marked[..|marked| - 1]) + if m.1 then [] else [m.0]
  }

  /** The last-seen container ID of each container name. */
  function LastSeen(entries: seq<Entry>): map<string, string>
    decreases |entries|
  {
    if entries == [] then map[]
    else
      var seen, e := LastSeen(entries[..|entries| - 1]), entries[|entries| - 1];
      if e.stream == "event" then seen else seen[e.name := e.containerID]
  }

  lemma {:induction false} LastSeenIsLatest(entries: seq<Entry>, name: string)
    ensures name in LastSeen(entries) ==> exists j :: IsLatest(entries, name, j)
    ensures forall j :: IsLatest(entries, name, j) ==>
      name in LastSeen(entries) && LastSeen(entries)[name] == entries[j].containerID
    decreases |entries|
  {
    if entries != [] {
      var n := |entries| - 1;
      var init := entries[..n];
      LastSeenIsLatest(init, name);
      if entries[n].stream != "event" && entries[n].name == name {
        assert IsLatest(entries, name, n);
        assert forall j :: IsLatest(entries, name, j) ==> j == n;
      } else {
        forall j ensures IsLatest(entries, name, j) <==> IsLatest(init, name, j) {
          if IsLatest(init, name, j) {
            forall k | j < k < |entries| && entries[k].stream != "event" ensures entries[k].name != name {
              assert k < n ==> entries[k] == init[k];
            }
          }
        }
      }
    }
  }

  lemma RedeploysIffSeen(entries: seq<Entry>, e: Entry)
    ensures Redeploys(entries, e) <==>
      e.stream != "event" && e.name in LastSeen(entries) && LastSeen(entries)[e.name] != e.containerID
  {
    LastSeenIsLatest(entries, e.name);
  }

  method InjectDeploySeparators(entries: seq<Entry>) returns (out: seq<Entry>)
    ensures out == Plain(Marked(entries))
  {
    var seen: map<string, string> := map[];
    out := [];
    for i := 0 to |entries|
      invariant out == Plain(Marked(entries[..i]))
      invariant seen == LastSeen(entries[..i])
    {
      var e := entries[i];
      RedeploysIffSeen(entries[..i], e);
      PlainOneMore(entries[..i], e);
      assert entries[..i + 1] == entries[..i] + [e];
      if e.stream == "event" {
        out := out + [e];
        continue;
      }
      if e.name in seen && seen[e.name] != e.containerID {
        out := out + [Separator(e)];
      }
      seen := seen[e.name := e.containerID];
      out := out + [e];
    }
    assert entries[..|entries|] == entries;
  }

  lemma PlainOneMore(entries: seq<Entry>, e: Entry)
    ensures Plain(Marked(entries + [e])) ==
      if Redeploys(entries, e) then Plain(Marked(entries)) + [Separator(e)] + [e] else Plain(Marked(entries)) + [e]
  {}

  // ---------------------------------------------------------------- what the separators change

  lemma {:induction false} EraseOfConcat(a: seq<(Entry, bool)>, b: seq<(Entry, bool)>)
    ensures Erase(a + b) == Erase(a) + Erase(b)
    decreases |b|
  {
    if b == [] {
      assert a + b == a && Erase(a) + [] == Erase(a);
    } else {
      var c := b[..|b| - 1];
      assert (a + b)[..|a + b| - 1] == a + c;
      EraseOfConcat(a, c);
    }
  }

  /** Erasing the separators gives back the entries. */
  lemma {:induction false} ErasingGivesBack(entries: seq<Entry>)
    ensures Erase(Marked(entries)) == entries
    decreases |entries|
  {
    if entries != [] {
      var init, e := entries[..|entries| - 1], entries[|entries| - 1];
      ErasingGivesBack(init);
      ErasedOneMore(init, e);
      assert entries == init + [e];
    }
  }

  lemma ErasedOneMore(entries: seq<Entry>, e: Entry)
    ensures Erase(Marked(entries + [e])) == Erase(Marked(entries)) + [e]
  {
    assert (entries + [e])[..|entries|] == entries;
    if Redeploys(entries, e) {
      EraseOneMore(Marked(entries), (Separator(e), true));
      EraseOneMore(Marked(entries) + [(Separator(e), true)], (e, false));
    } else {
      assert Marked(entries) + [] == Marked(entries);
      EraseOneMore(Marked(entries), (e, false));
    }
  }

  lemma EraseOneMore(marked: seq<(Entry, bool)>, m: (Entry, bool))
    ensures Erase(marked + [m]) == if m.1 then Erase(marked) else Erase(marked) + [m.0]
  {
    assert (marked + [m])[..|marked|] == marked;
  }

  /** A separator comes right before an entry, at its time and about its container, and is an event
      that says so. */
  lemma {:induction false} SeparatorsAnnounce(entries: seq<Entry>, k: nat)
    requires k < |Marked(entries)| && Marked(entries)[k].1
    ensures k + 1 < |Marked(entries)| && !Marked(entries)[k + 1].1
    ensures var e := Marked(entries)[k + 1].0;
      && e in entries
      && Marked(entries)[k].0 == Entry(e.ts, e.containerID, e.name, "event", "── " + e.name + " redeployed ──")
    decreases |entries|
  {
    var init := entries[..|entries| - 1];
    if k < |Marked(init)| {
      SeparatorsAnnounce(init, k);
      assert Marked(init)[k] == Marked(entries)[k] && Marked(init)[k + 1] == Marked(entries)[k + 1];
    }
  }

  ghost predicate Ascending(s: seq<Entry>) {
    forall i, j :: 0 <= i < j < |s| ==> s[i].ts <= s[j].ts
  }

  lemma LastStaysLast(entries: seq<Entry>)
    requires entries != []
    ensures Marked(entries) != [] && Plain(Marked(entries))[|Marked(entries)| - 1] == entries[|entries| - 1]
  {}

  lemma {:induction false} SeparatorsKeepOrder(entries: seq<Entry>)
    requires Ascending(entries)
    ensures Ascending(Plain(Marked(entries)))
    decreases |entries|
  {
    if entries != [] {
      var init, e := entries[..|entries| - 1], entries[|entries| - 1];
      SeparatorsKeepOrder(init);
      assert entries == init + [e];
      PlainOneMore(init, e);
      if init != [] {
        LastStaysLast(init);
        assert entries[|init| - 1].ts <= entries[|init|].ts;
      }
    }
  }

  // ---------------------------------------------------------------- the merge

  function OlderThan(s: seq<Entry>, ts: int): seq<Entry>
    decreases |s|
  {
    if s == [] then []
    else OlderThan(s[..|s| - 1], ts) + if ts == 0 || s[|s| - 1].ts < ts then [s[|s| - 1]] else []
  }

  function OldestTime(live: seq<Entry>): int { if live == [] then 0 else live[0].ts }

  /** What the view holds after a page of history, newest first, meets the live entries: the
      last 500 of the older history, with separators, and then the live entries. */
  ghost function Merged(page: seq<Entry>, live: seq<Entry>): seq<Entry> {
    Tail(OlderThan(Plain(Marked(Reversed(page))), OldestTime(live)) + live, CAPACITY)
  }

  class DetailState {
    var containerID: string
    var project: string
    var logs: RingBuffer?<Entry>
    var backfilled: bool
    var pending: bool
    var totalLogCount: int
    var logCursor: int

    ghost predicate Valid()
      reads this, logs, if logs == null then {} else {logs.buf}
    {
      logs != null ==> logs.Valid() && logs.size == CAPACITY
    }

    /** The live entries now in the view. */
    ghost function Live(): seq<Entry>
      requires logs != null
      reads this, logs
    {
      Tail(logs.pushed, CAPACITY)
    }

    constructor (containerID: string, project: string)
      ensures Valid() && logs != null && logs.pushed == [] && !backfilled
      ensures this.containerID == containerID && this.project == project
    {
      this.containerID, this.project := containerID, project;
      backfilled, pending, totalLogCount, logCursor := false, false, 0, 0;
      logs := new RingBuffer(CAPACITY);
    }

    /** Takes the reply to a history query; entries is its page, which is reversed in place. */
    method HandleBackfill(entries: array<Entry>, total: int, forID: string, forProject: string)
      requires Valid() && (logs != null ==> logs.buf != entries)
      modifies this`logs, this`backfilled, this`pending, this`totalLogCount, this`logCursor, entries
      ensures Valid() && !pending && containerID == old(containerID) && project == old(project)
      ensures var ignored := old(backfilled) || old(logs) == null;
        var stale := !ignored && (forID != containerID || forProject != project);
        var used := !ignored && !stale && entries.Length > 0;
        && (backfilled <==> old(backfilled) || !stale)
        && totalLogCount == (if ignored || stale || total < 0 then old(totalLogCount) else total)
        && (!used ==> logs == old(logs) && logCursor == old(logCursor) && entries[..] == old(entries[..]))
        && (used ==> logs != null && fresh(logs) && Live() == Merged(old(entries[..]), old(Live()))
                     && logCursor == |Live()| - 1)
    {
      pending := false;
      if backfilled || logs == null {
        backfilled := true;
        return;
      }
      if forID != containerID || forProject != project {
        return;
      }
      if total >= 0 {
        totalLogCount := total;
      }
      if entries.Length == 0 {
        backfilled := true;
        return;
      }
      var existing := logs.Data();
      var newBuf := MergeHistory(entries, existing);
      logs := newBuf;
      backfilled := true;
      if newBuf.count > 0 {
        logCursor := newBuf.count - 1;
      }
    }
  }

  /** Reverses the page, marks its redeploys, and merges what is older with the live entries. */
  method MergeHistory(entries: array<Entry>, existing: seq<Entry>) returns (newBuf: RingBuffer<Entry>)
    modifies entries
    ensures fresh(newBuf) && fresh(newBuf.buf) && newBuf.Valid() && newBuf.size == CAPACITY
    ensures Tail(newBuf.pushed, CAPACITY) == Merged(old(entries[..]), existing)
  {
    ReverseInPlace(entries);
    var oldest := if |existing| > 0 then existing[0].ts else 0;
    var backfill := InjectDeploySeparators(entries[..]);
    newBuf := Merge(backfill, existing, oldest);
  }

  /** A new buffer with the history older than this, and then the live entries, pushed. */
  method Merge(backfill: seq<Entry>, existing: seq<Entry>, oldest: int) returns (newBuf: RingBuffer<Entry>)
    ensures fresh(newBuf) && fresh(newBuf.buf) && newBuf.Valid() && newBuf.size == CAPACITY
    ensures newBuf.pushed == OlderThan(backfill, oldest) + existing
  {
    newBuf := new RingBuffer<Entry>(CAPACITY);
    PushOlder(newBuf, backfill, oldest);
    PushAll(newBuf, existing);
  }

  method PushAll(newBuf: RingBuffer<Entry>, existing: seq<Entry>)
    requires newBuf.Valid()
    modifies newBuf, newBuf.buf
    ensures newBuf.Valid() && newBuf.pushed == old(newBuf.pushed) + existing
  {
    for i := 0 to |existing|
      invariant newBuf.Valid() && newBuf.pushed == old(newBuf.pushed) + existing[..i]
    {
      newBuf.Push(existing[i]);
      assert existing[..i + 1] == existing[..i] + [existing[i]];
    }
    assert existing[..|existing|] == existing;
  }

  method PushOlder(newBuf: RingBuffer<Entry>, backfill: seq<Entry>, oldest: int)
    requires newBuf.Valid() && newBuf.pushed == []
    modifies newBuf, newBuf.buf
    ensures newBuf.Valid() && newBuf.pushed == OlderThan(backfill, oldest)
  {
    for i := 0 to |backfill|
      invariant newBuf.Valid() && newBuf.pushed == OlderThan(backfill[..i], oldest)
    {
      OlderThanOneMore(backfill[..i], backfill[i], oldest);
      assert backfill[..i + 1] == backfill[..i] + [backfill[i]];
      if oldest == 0 || backfill[i].ts < oldest {
        newBuf.Push(backfill[i]);
      }
    }
    assert backfill[..|backfill|] == backfill;
  }

  method ReverseInPlace(a: array<Entry>)
    modifies a
    ensures a[..] == Reversed(old(a[..]))
  {
    var i, j := 0, a.Length - 1;
    while i < j
      invariant 0 <= i <= a.Length && j == a.Length - 1 - i && i <= j + 1
      invariant forall k :: 0 <= k < i || j < k < a.Length ==> a[k] == old(a[..])[a.Length - 1 - k]
      invariant forall k :: i <= k <= j ==> a[k] == old(a[..])[k]
    {
      a[i], a[j] := a[j], a[i];
      i, j := i + 1, j - 1;
    }
  }

  // ---------------------------------------------------------------- what the merge promises

  lemma {:induction false} OlderThanAll(s: seq<Entry>)
    ensures OlderThan(s, 0) == s
    decreases |s|
  {
    if s != [] {
      OlderThanAll(s[..|s| - 1]);
    }
  }

  /** No live entry is lost: the result ends with all of them, after as much history as fits. */
  lemma LiveEntriesSurvive(page: seq<Entry>, live: seq<Entry>)
    requires |live| <= CAPACITY
    ensures Merged(page, live) ==
      Tail(OlderThan(Plain(Marked(Reversed(page))), OldestTime(live)), CAPACITY - |live|) + live
  {}

  /** The marked entries older than the live ones. */
  function KeepOlder(marked: seq<(Entry, bool)>, ts: int): seq<(Entry, bool)>
    decreases |marked|
  {
    if marked == [] then []
    else
      var m := marked[|marked| - 1];
      KeepOlder(marked[..|marked| - 1], ts) + if ts == 0 || m.0.ts < ts then [m] else []
  }

  lemma {:induction false} KeepOlderPlain(marked: seq<(Entry, bool)>, ts: int)
    ensures Plain(KeepOlder(marked, ts)) == OlderThan(Plain(marked), ts)
    decreases |marked|
  {
    if marked != [] {
      var init := marked[..|marked| - 1];
      KeepOlderPlain(init, ts);
      assert Plain(marked)[..|Plain(marked)| - 1] == Plain(init);
    }
  }

  /** Of the history exactly what is older than the first live entry is kept, in order, where a
      first live entry at time zero counts as none. */
  lemma {:induction false} OlderIsKept(a: seq<Entry>, e: Entry, b: seq<Entry>, live: seq<Entry>)
    ensures var ts := OldestTime(live);
      var kept := live == [] || live[0].ts == 0 || e.ts < live[0].ts;
      && OlderThan([], ts) == []
      && OlderThan(a + [e] + b, ts) == OlderThan(a, ts) + (if kept then [e] else []) + OlderThan(b, ts)
    decreases |b|
  {
    if b == [] {
      assert a + [e] + b == a + [e];
      OlderThanOneMore(a, e, OldestTime(live));
    } else {
      var init, last := b[..|b| - 1], b[|b| - 1];
      OlderIsKept(a, e, init, live);
      assert a + [e] + b == (a + [e] + init) + [last] && b == init + [last];
      OlderThanOneMore(a + [e] + init, last, OldestTime(live));
      OlderThanOneMore(init, last, OldestTime(live));
    }
  }

  lemma OlderThanOneMore(s: seq<Entry>, e: Entry, ts: int)
    ensures OlderThan(s + [e], ts) == if ts == 0 || e.ts < ts then OlderThan(s, ts) + [e] else OlderThan(s, ts)
  {}

  lemma {:induction false} KeepOlderErase(marked: seq<(Entry, bool)>, ts: int)
    ensures Erase(KeepOlder(marked, ts)) == OlderThan(Erase(marked), ts)
    decreases |marked|
  {
    if marked != [] {
      var init, m := marked[..|marked| - 1], marked[|marked| - 1];
      KeepOlderErase(init, ts);
      EraseOfConcat(KeepOlder(init, ts), if ts == 0 || m.0.ts < ts then [m] else []);
      if m.1 {
        assert Erase(marked) == Erase(init);
      } else {
        assert Erase(marked) == Erase(init) + [m.0];
        OlderThanOneMore(Erase(init), m.0, ts);
      }
    }
  }

  lemma TailSplits(all: seq<(Entry, bool)>, n: nat) returns (kept: seq<(Entry, bool)>, dropped: seq<(Entry, bool)>)
    ensures all == dropped + kept && Plain(kept) == Tail(Plain(all), n)
    ensures Erase(dropped) + Erase(kept) == Erase(all) && (dropped != [] ==> |kept| == n)
  {
    kept := Tail(all, n);
    dropped := all[..|all| - |kept|];
    assert all == dropped + kept;
    EraseOfConcat(dropped, kept);
  }

  /** The inserted separators are all that is added: the view keeps the end of the page's older
      entries with their separators, and, with these erased, the end of the older entries. */
  lemma ErasingSeparatorsGivesHistory(page: seq<Entry>, live: seq<Entry>)
    returns (kept: seq<(Entry, bool)>, dropped: seq<(Entry, bool)>)
    requires |live| <= 500
    ensures Merged(page, live) == Plain(kept) + live
    ensures dropped + kept == KeepOlder(Marked(Reversed(page)), OldestTime(live))
    ensures Erase(dropped) + Erase(kept) == OlderThan(Reversed(page), OldestTime(live))
    ensures dropped != [] ==> |kept| + |live| == 500
  {
    KeepOlderPlain(Marked(Reversed(page)), OldestTime(live));
    KeepOlderErase(Marked(Reversed(page)), OldestTime(live));
    ErasingGivesBack(Reversed(page));
    LiveEntriesSurvive(page, live);
    kept, dropped := TailSplits(KeepOlder(Marked(Reversed(page)), OldestTime(live)), CAPACITY - |live|);
  }

  lemma {:induction false} OlderThanAscending(s: seq<Entry>, ts: int)
    requires Ascending(s)
    ensures Ascending(OlderThan(s, ts))
    ensures ts != 0 ==> forall e :: e in OlderThan(s, ts) ==> e.ts < ts
    ensures forall e :: e in OlderThan(s, ts) ==> e in s
    decreases |s|
  {
    if s != [] {
      var init, last := s[..|s| - 1], s[|s| - 1];
      OlderThanAscending(init, ts);
      forall e | e in OlderThan(init, ts) ensures e.ts <= last.ts {
        var k :| 0 <= k < |init| && init[k] == e;
        assert s[k].ts <= s[|s| - 1].ts;
      }
    }
  }

  /** The history that is merged, before it is cut to size. */
  lemma HistoryAscending(page: seq<Entry>, ts: int)
    requires forall i, j :: 0 <= i < j < |page| ==> page[i].ts >= page[j].ts
    ensures var older := OlderThan(Plain(Marked(Reversed(page))), ts);
      && Ascending(older)
      && (ts != 0 ==> forall e :: e in older ==> e.ts < ts)
      && (ts == 0 && page != [] ==> older != [] && older[|older| - 1] == page[0])
      && (page == [] ==> older == [])
  {
    var history := Plain(Marked(Reversed(page)));
    SeparatorsKeepOrder(Reversed(page));
    if page != [] {
      LastStaysLast(Reversed(page));
    }
    OlderThanAscending(history, ts);
    if ts == 0 {
      OlderThanAll(history);
    }
  }

  /** For a page that is newest first and live entries in order, the merged view is in order
      exactly when it can be: unless live entries start at time zero, and history is kept whose
      newest entry is later than that. */
  lemma MergedAscendingIff(page: seq<Entry>, live: seq<Entry>)
    requires forall i, j :: 0 <= i < j < |page| ==> page[i].ts >= page[j].ts
    requires Ascending(live) && |live| <= CAPACITY
    ensures Ascending(Merged(page, live)) <==>
      live == [] || live[0].ts != 0 || page == [] || |live| == CAPACITY || page[0].ts <= 0
  {
    var older := OlderThan(Plain(Marked(Reversed(page))), OldestTime(live));
    HistoryAscending(page, OldestTime(live));
    LiveEntriesSurvive(page, live);
    CutAscendingIff(older, live);
    if older != [] {
      assert older[|older| - 1] in older;
    }
  }

  lemma CutAscendingIff(older: seq<Entry>, live: seq<Entry>)
    requires Ascending(older) && Ascending(live) && |live| <= CAPACITY
    ensures Ascending(Tail(older, CAPACITY - |live|) + live) <==>
      older == [] || live == [] || |live| == CAPACITY || older[|older| - 1].ts <= live[0].ts
  {
    JoinAscendingIff(Tail(older, CAPACITY - |live|), live);
  }

  lemma JoinAscendingIff(a: seq<Entry>, b: seq<Entry>)
    requires Ascending(a) && Ascending(b)
    ensures Ascending(a + b) <==> a == [] || b == [] || a[|a| - 1].ts <= b[0].ts
  {
    if a != [] && b != [] && a[|a| - 1].ts > b[0].ts {
      assert (a + b)[|a| - 1].ts > (a + b)[|a|].ts;
    } else {
    }
  }
}
