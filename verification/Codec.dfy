/** The length-prefixed stream of envelopes (internal/protocol/codec.go). Marshalling itself is
    a parameter: any pair of functions in which unmarshalling inverts marshalling. */
module Codec {
  import opened Options

  type byte = b: int | 0 <= b < 256

  const MAX_MESSAGE_SIZE := 16 * 1024 * 1024

  datatype Marshaller<!E> = Marshaller(marshal: E -> Option<seq<byte>>, unmarshal: seq<byte> -> Option<E>)

  ghost predicate Inverts<E(!new)>(m: Marshaller<E>) {
    forall e: E :: m.marshal(e).Some? ==> m.unmarshal(m.marshal(e).value) == Some(e)
  }

  // ---------------------------------------------------------------- the header

  /** Four bytes, the most significant first. */
  function PutUint32(n: nat): (h: seq<byte>)
    requires n < 0x1_0000_0000
    ensures |h| == 4
  {
    var a := n / 0x100;
    var b := a / 0x100;
    [b / 0x100, b % 0x100, a % 0x100, n % 0x100]
  }

  function Uint32(h: seq<byte>): (n: nat)
    requires |h| == 4
    ensures n < 0x1_0000_0000
    ensures n == h[0] as int * 0x100_0000 + h[1] as int * 0x1_0000 + h[2] as int * 0x100 + h[3] as int
  {
    (((h[0] as int * 0x100) + h[1] as int) * 0x100 + h[2] as int) * 0x100 + h[3] as int
  }

  lemma HeaderRoundTrip(n: nat)
    requires n < 0x1_0000_0000
    ensures Uint32(PutUint32(n)) == n
  {}

  // ---------------------------------------------------------------- writing and reading one

  /** What a write appends; None when it refuses. */
  function Frame<E>(m: Marshaller<E>, e: E): Option<seq<byte>> {
    var data := m.marshal(e);
    if data.None? || |data.value| > MAX_MESSAGE_SIZE then None
    else Some(PutUint32(|data.value|) + data.value)
  }

  datatype Stop = Eof | Error

  datatype Read<+E> = Got(env: E, size: nat) | Stopped(why: Stop)

  /** Reading exactly n bytes: nothing at all to read is end of file, too little is an error. */
  function ReadFull(bytes: seq<byte>, n: nat): Option<Stop> {
    if |bytes| >= n then None else if bytes == [] then Some(Eof) else Some(Error)
  }

  /** Reads one envelope off the front; size is how many bytes it took. */
  function ReadOne<E>(m: Marshaller<E>, bytes: seq<byte>): (r: Read<E>)
    ensures r.Got? ==> 4 <= r.size <= |bytes|
  {
    var header := ReadFull(bytes, 4);
    if header.Some? then Stopped(header.value)
    else
      var size := Uint32(bytes[..4]);
      if size > MAX_MESSAGE_SIZE then Stopped(Error)
      else
        var body := ReadFull(bytes[4..], size);
        if body.Some? then Stopped(body.value)
        else
          var e := m.unmarshal(bytes[4..4 + size]);
          if e.None? then Stopped(Error) else Got(e.value, 4 + size)
  }

  /** An envelope can be written exactly if it marshals to at most 16 MiB, and then its frame is
      the length and these bytes. */
  lemma FrameIff<E>(m: Marshaller<E>, e: E)
    ensures var data, frame := m.marshal(e), Frame(m, e);
      && (frame.Some? <==> data.Some? && |data.value| <= 16_777_216)
      && (frame.Some? ==> |frame.value| == 4 + |data.value| && frame.value[4..] == data.value
                          && Uint32(frame.value[..4]) == |data.value|)
  {
    if Frame(m, e).Some? {
      var n := |m.marshal(e).value|;
      HeaderRoundTrip(n);
      assert Frame(m, e).value[..4] == PutUint32(n);
    }
  }

  /** What any bytes read as. An envelope: when a length of at most 16 MiB is followed by that many
      bytes and they decode. End of file: when there are none, or nothing after such a length. */
  lemma ReadOneIff<E(!new)>(m: Marshaller<E>, bytes: seq<byte>)
    ensures var n := if |bytes| >= 4 then Uint32(bytes[..4]) else 0;
      && (forall e: E :: ReadOne(m, bytes) == Got(e, 4 + n) <==>
            |bytes| >= 4 + n && n <= 16_777_216 && m.unmarshal(bytes[4..4 + n]) == Some(e))
      && (ReadOne(m, bytes).Got? ==> ReadOne(m, bytes).size == 4 + n)
      && (ReadOne(m, bytes) == Stopped(Eof) <==> bytes == [] || (|bytes| == 4 && 0 < n <= 16_777_216))
  {}

  /** Reads until it stops: every envelope read, and why it stopped. */
  function ReadAll<E>(m: Marshaller<E>, bytes: seq<byte>): (seq<E>, Stop)
    decreases |bytes|
  {
    match ReadOne(m, bytes)
    case Stopped(why) => ([], why)
    case Got(e, size) =>
      var (rest, why) := ReadAll(m, bytes[size..]);
      ([e] + rest, why)
  }

  class Writer<!E> {
    const m: Marshaller<E>
    var out: seq<byte>

    constructor (m: Marshaller<E>)
      ensures this.m == m && out == []
    {
      this.m, out := m, [];
    }

    method WriteMsg(e: E) returns (ok: bool)
      modifies this
      ensures ok <==> Frame(m, e).Some?
      ensures out == if ok then old(out) + Frame(m, e).value else old(out)
    {
      var data := m.marshal(e);
      if data.None? {
        return false;
      }
      if |data.value| > MAX_MESSAGE_SIZE {
        return false;
      }
      out := out + PutUint32(|data.value|);
      out := out + data.value;
      assert out == old(out) + Frame(m, e).value;
      return true;
    }
  }

  class Reader<!E> {
    const m: Marshaller<E>
    var bytes: seq<byte>

    constructor (m: Marshaller<E>, bytes: seq<byte>)
      ensures this.m == m && this.bytes == bytes
    {
      this.m, this.bytes := m, bytes;
    }

    /** A failed read may leave the stream anywhere. */
    method ReadMsg() returns (r: Read<E>)
      modifies this
      ensures r == ReadOne(m, old(bytes))
      ensures r.Got? ==> bytes == old(bytes)[r.size..]
    {
      if |bytes| < 4 {
        r := Stopped(if bytes == [] then Eof else Error);
        bytes := [];
        return;
      }
      var header := bytes[..4];
      bytes := bytes[4..];
      var size := Uint32(header);
      if size > MAX_MESSAGE_SIZE {
        return Stopped(Error);
      }
      if |bytes| < size {
        r := Stopped(if bytes == [] then Eof else Error);
        bytes := [];
        return;
      }
      var data := bytes[..size];
      bytes := bytes[size..];
      assert old(bytes)[4..4 + size] == data;
      var e := m.unmarshal(data);
      if e.None? {
        return Stopped(Error);
      }
      return Got(e.value, 4 + size);
    }
  }

  // ---------------------------------------------------------------- whole streams

  /** Every envelope of the list can be written. */
  ghost predicate Writable<E>(m: Marshaller<E>, es: seq<E>) {
    forall i :: 0 <= i < |es| ==> Frame(m, es[i]).Some?
  }

  /** The bytes of a written list. */
  function Stream<E>(m: Marshaller<E>, es: seq<E>): seq<byte>
    requires forall i :: 0 <= i < |es| ==> Frame(m, es[i]).Some?
  {
    if es == [] then [] else Frame(m, es[0]).value + Stream(m, es[1..])
  }

  lemma FrameReads<E(!new)>(m: Marshaller<E>, e: E, rest: seq<byte>)
    requires Inverts(m) && Frame(m, e).Some?
    ensures ReadOne(m, Frame(m, e).value + rest) == Got(e, |Frame(m, e).value|)
  {}

  /** Writing a list and reading the stream back gives the same list and then end of file. */
  lemma {:induction false} RoundTrip<E(!new)>(m: Marshaller<E>, es: seq<E>)
    requires Inverts(m) && Writable(m, es)
    ensures ReadAll(m, Stream(m, es)) == (es, Eof)
    decreases |es|
  {
    if es != [] {
      RoundTrip(m, es[1..]);
      var f, rest := Frame(m, es[0]).value, Stream(m, es[1..]);
      FrameReads(m, es[0], rest);
      assert (f + rest)[|f|..] == rest;
      assert es == [es[0]] + es[1..];
    }
  }

  /** A cut frame gives no envelope: end of file right before or right after its header, and an
      error anywhere else. */
  lemma CutFrameStops<E(!new)>(m: Marshaller<E>, e: E, p: seq<byte>)
    requires Inverts(m) && Frame(m, e).Some? && p <= Frame(m, e).value && p != Frame(m, e).value
    ensures ReadOne(m, p) == Stopped(if |p| == 0 || |p| == 4 then Eof else Error)
  {}

  lemma ReadAllStep<E(!new)>(m: Marshaller<E>, e: E, rest: seq<byte>)
    requires Inverts(m) && Frame(m, e).Some?
    ensures ReadAll(m, Frame(m, e).value + rest) == ([e] + ReadAll(m, rest).0, ReadAll(m, rest).1)
  {}

  lemma PrefixSplits(p: seq<byte>, f: seq<byte>, rest: seq<byte>)
    requires p <= f + rest
    ensures |p| < |f| ==> p <= f
    ensures |p| >= |f| ==> p == f + p[|f|..] && p[|f|..] <= rest
  {}

  /** The first k envelopes are exactly those complete in the prefix p. */
  ghost predicate Complete<E>(m: Marshaller<E>, es: seq<E>, p: seq<byte>, k: nat)
    requires forall i :: 0 <= i < |es| ==> Frame(m, es[i]).Some?
  {
    && k <= |es| && Stream(m, es[..k]) <= p
    && (k < |es| ==> |p| < |Stream(m, es[..k])| + |Frame(m, es[k]).value|)
  }

  lemma OneMoreComplete<E>(m: Marshaller<E>, es: seq<E>, q: seq<byte>, k: nat)
    requires es != [] && forall i :: 0 <= i < |es| ==> Frame(m, es[i]).Some?
    requires Complete(m, es[1..], q, k)
    ensures Complete(m, es, Frame(m, es[0]).value + q, k + 1)
    ensures |Stream(m, es[..k + 1])| == |Frame(m, es[0]).value| + |Stream(m, es[1..][..k])|
  {
    assert es[..k + 1][0] == es[0] && es[..k + 1][1..] == es[1..][..k];
  }

  /** One more frame before a prefix that is read as it should be. */
  lemma PrefixOneMore<E(!new)>(m: Marshaller<E>, es: seq<E>, q: seq<byte>, j: nat)
    requires Inverts(m) && Writable(m, es) && es != []
    requires Complete(m, es[1..], q, j) && ReadAll(m, q).0 == es[1..][..j]
    requires ReadAll(m, q).1 == Eof <==> |q| == |Stream(m, es[1..][..j])| || |q| == |Stream(m, es[1..][..j])| + 4
    ensures var p := Frame(m, es[0]).value + q;
      && Complete(m, es, p, j + 1) && ReadAll(m, p).0 == es[..j + 1]
      && (ReadAll(m, p).1 == Eof <==> |p| == |Stream(m, es[..j + 1])| || |p| == |Stream(m, es[..j + 1])| + 4)
  {
    OneMoreComplete(m, es, q, j);
    ReadAllStep(m, es[0], q);
    assert es[..j + 1] == [es[0]] + es[1..][..j];
  }

  /** Reading any prefix of a written stream gives exactly the envelopes that are complete in
      it, never a different one, and then end of file or an error: end of file when the cut is
      at a frame's start or right after its header. */
  lemma {:induction false} PrefixRoundTrip<E(!new)>(m: Marshaller<E>, es: seq<E>, p: seq<byte>) returns (k: nat)
    requires Inverts(m) && Writable(m, es) && p <= Stream(m, es)
    ensures Complete(m, es, p, k) && ReadAll(m, p).0 == es[..k]
    ensures ReadAll(m, p).1 == Eof <==> |p| == |Stream(m, es[..k])| || |p| == |Stream(m, es[..k])| + 4
    decreases |es|
  {
    if es == [] {
      k := 0;
    } else {
      var f := Frame(m, es[0]).value;
      PrefixSplits(p, f, Stream(m, es[1..]));
      if |p| < |f| {
        k := 0;
        CutFrameStops(m, es[0], p);
        assert es[..0] == [];
      } else {
        var j := PrefixRoundTrip(m, es[1..], p[|f|..]);
        k := j + 1;
        PrefixOneMore(m, es, p[|f|..], j);
      }
    }
  }
}
