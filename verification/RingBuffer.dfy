/** The fixed-size circular buffer of the client (internal/tui/state.go). */
module Ring {
  import opened Options

  /** The last n elements, or all of them if there are fewer. */
  function Tail<T>(s: seq<T>, n: nat): (t: seq<T>)
    ensures |t| == if |s| < n then |s| else n
  {
    if |s| <= n then s else s[|s| - n..]
  }

  lemma TailOfPush<T>(s: seq<T>, v: T, n: nat)
    requires n > 0
    ensures Tail(s + [v], n) == if |s| < n then Tail(s, n) + [v] else Tail(s, n)[1..] + [v]
  {}

  lemma ModOnce(x: int, n: int)
    requires 0 <= x < 2 * n
    ensures x % n == if x < n then x else x - n
  {}

  /** The stored values, oldest first, of a full-size buffer with this head and count. */
  function KeptOf<T>(buf: seq<T>, head: nat, count: nat): (kept: seq<T>)
    requires head < |buf| && count <= |buf|
    ensures |kept| == count
  {
    if count <= head then buf[head - count..head] else buf[head + |buf| - count..] + buf[..head]
  }

  lemma KeptAt<T>(buf: seq<T>, head: nat, count: nat, i: nat)
    requires head < |buf| && i < count <= |buf|
    ensures var start := if count <= head then head - count else head + |buf| - count;
      KeptOf(buf, head, count)[i] == buf[if start + i < |buf| then start + i else start + i - |buf|]
  {}

  /** Writing at the head adds a value and, when the buffer is full, drops the oldest. */
  lemma KeptAfterPush<T>(buf: seq<T>, head: nat, count: nat, v: T)
    requires head < |buf| && count <= |buf|
    ensures var next := if head + 1 < |buf| then head + 1 else 0;
      KeptOf(buf[head := v], next, if count < |buf| then count + 1 else count)
      == (if count < |buf| then KeptOf(buf, head, count) else KeptOf(buf, head, count)[1..]) + [v]
  {}

  class RingBuffer<T(0)> {
    const size: nat
    const buf: array<T>
    var head: nat
    var count: nat
    ghost var pushed: seq<T> // everything pushed since the last reset

    ghost predicate Valid()
      reads this, buf
    {
      && size > 0 && buf.Length == size && head < size && count <= size
      && KeptOf(buf[..], head, count) == Tail(pushed, size)
    }

    constructor (size: nat)
      requires size > 0
      ensures Valid() && this.size == size && pushed == [] && fresh(buf)
    {
      this.size, head, count, pushed := size, 0, 0, [];
      buf := new T[size];
    }

    method Push(v: T)
      requires Valid()
      modifies this`head, this`count, this`pushed, buf
      ensures Valid() && pushed == old(pushed) + [v]
    {
      TailOfPush(pushed, v, size);
      KeptAfterPush(buf[..], head, count, v);
      ModOnce(head + 1, size);
      buf[head] := v;
      assert buf[..] == old(buf[..])[head := v];
      head := (head + 1) % size;
      if count < size {
        count := count + 1;
      }
      pushed := pushed + [v];
    }

    /** All stored values in insertion order: the last `size` values pushed, or all of them. */
    method Data() returns (out: seq<T>)
      requires Valid()
      ensures out == Tail(pushed, size)
    {
      if count == 0 {
        return [];
      }
      ModOnce(head - count + size, size);
      var start := (head - count + size) % size;
      out := [];
      for i := 0 to count
        invariant |out| == i && forall j :: 0 <= j < i ==> out[j] == Tail(pushed, size)[j]
      {
        KeptAt(buf[..], head, count, i);
        ModOnce(start + i, size);
        out := out + [buf[(start + i) % size]];
      }
    }

    method Last() returns (v: Option<T>)
      requires Valid()
      ensures v == if pushed == [] then None else Some(pushed[|pushed| - 1])
    {
      if count == 0 {
        return None;
      }
      ModOnce(head - 1 + size, size);
      KeptAt(buf[..], head, count, count - 1);
      return Some(buf[(head - 1 + size) % size]);
    }

    method Reset()
      requires Valid()
      modifies this`head, this`count, this`pushed
      ensures Valid() && pushed == []
    {
      head, count, pushed := 0, 0, [];
    }
  }
}
