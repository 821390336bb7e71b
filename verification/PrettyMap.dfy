/** The byte-position map from raw JSON to pretty-printed JSON (internal/tui/detail_highlight.go).
    Whitespace is that of section 2 of RFC 8259, and strings and their escapes are those of its
    section 7; neither text need be valid JSON. */
module PrettyMap {
  import LogParse

  predicate IsWs(c: char) { c == ' ' || c == '\t' || c == '\n' || c == '\r' }

  /** Whether the scan is inside a string, and just after a backslash there. */
  datatype Mode = Mode(inStr: bool, esc: bool)

  const OUTSIDE := Mode(false, false)

  function Advance(m: Mode, c: char): Mode {
    if m.esc then m.(esc := false)
    else if c == '\\' && m.inStr then m.(esc := true)
    else if c == '"' then m.(inStr := !m.inStr)
    else m
  }

  /** Whitespace outside strings does not count. */
  predicate Counts(m: Mode, c: char) { m.inStr || !IsWs(c) }

  function Next(m: Mode, c: char): Mode { if Counts(m, c) then Advance(m, c) else m }

  /** The text with the whitespace outside strings erased. */
  function Strip(s: string, m: Mode): string {
    if s == "" then ""
    else if Counts(m, s[0]) then [s[0]] + Strip(s[1..], Advance(m, s[0]))
    else Strip(s[1..], m)
  }

  /** The mode in which the scan reaches position i. */
  function ModeAt(s: string, i: nat): Mode
    requires i <= |s|
  {
    if i == 0 then OUTSIDE else Next(ModeAt(s, i - 1), s[i - 1])
  }

  /** The byte at i counts. */
  predicate Significant(s: string, i: int) { 0 <= i < |s| && Counts(ModeAt(s, i), s[i]) }

  /** How many bytes before i count. */
  function Rank(s: string, i: nat): nat
    requires i <= |s|
  {
    if i == 0 then 0 else Rank(s, i - 1) + if Significant(s, i - 1) then 1 else 0
  }

  /** The map sends significant byte i to the byte of pretty with the same rank, which is equal. */
  ghost predicate Corresponds(raw: string, pretty: string, i: int, j: int) {
    Significant(raw, i) && Significant(pretty, j) && raw[i] == pretty[j] && Rank(raw, i) == Rank(pretty, j)
  }

  lemma StripSkips(s: string, j: nat, m: Mode)
    requires j < |s| && !Counts(m, s[j])
    ensures Strip(s[j..], m) == Strip(s[j + 1..], m)
  {}

  lemma StripTakes(s: string, i: nat, m: Mode)
    requires i < |s| && Counts(m, s[i])
    ensures Strip(s[i..], m) == [s[i]] + Strip(s[i + 1..], Advance(m, s[i]))
  {}

  /** Position i of raw and j of pretty are reached in the same mode, after as many significant
      bytes, and with the same text left once whitespace is erased. */
  ghost predicate Aligned(raw: string, pretty: string, i: nat, j: nat, m: Mode)
    requires i <= |raw|
  {
    && j <= |pretty| && ModeAt(raw, i) == m && ModeAt(pretty, j) == m && Rank(pretty, j) == Rank(raw, i)
    && Strip(raw[i..], m) == Strip(pretty[j..], m)
  }

  /** Where the next byte can go, given that byte i of raw went to position at. */
  function EndOf(raw: string, i: int, at: int): int { if Significant(raw, i) then at + 1 else at }

  /** What each entry must be, given the one before it. */
  ghost predicate Chained(raw: string, m: seq<int>) {
    && |m| <= |raw|
    && (m != [] ==> m[0] >= 0 && (!Significant(raw, 0) ==> m[0] == 0))
    && (forall k :: 0 < k < |m| ==> m[k] >= EndOf(raw, k - 1, m[k - 1]))
    && (forall k :: 0 < k < |m| && !Significant(raw, k) ==> m[k] == EndOf(raw, k - 1, m[k - 1]))
  }

  /** Where the byte after the mapped ones can go. */
  function EndOfAll(raw: string, m: seq<int>): int {
    if m == [] then 0 else EndOf(raw, |m| - 1, m[|m| - 1])
  }

  ghost predicate AllCorrespond(raw: string, pretty: string, m: seq<int>) {
    forall k :: 0 <= k < |m| && Significant(raw, k) ==> Corresponds(raw, pretty, k, m[k])
  }

  lemma CorrespondOneMore(raw: string, pretty: string, m: seq<int>, at: int)
    requires AllCorrespond(raw, pretty, m) && (Significant(raw, |m|) ==> Corresponds(raw, pretty, |m|, at))
    ensures AllCorrespond(raw, pretty, m + [at])
  {}

  /** The map of the first bytes of raw, and the position and mode after them. */
  ghost predicate MapOk(raw: string, pretty: string, m: seq<int>, j: int, mode: Mode, same: bool) {
    && |m| <= |raw| && mode == ModeAt(raw, |m|)
    && Chained(raw, m) && 0 <= j == EndOfAll(raw, m)
    && (same ==> Aligned(raw, pretty, |m|, j, mode) && AllCorrespond(raw, pretty, m))
  }

  lemma MapOneMore(raw: string, pretty: string, m: seq<int>, start: int, at: int, j: int, mode: Mode, next: Mode,
                   same: bool)
    requires MapOk(raw, pretty, m, start, mode, same) && |m| < |raw| && next == ModeAt(raw, |m| + 1)
    requires at >= start && j == EndOf(raw, |m|, at) && (!Significant(raw, |m|) ==> at == start)
    requires same ==> Aligned(raw, pretty, |m| + 1, j, next)
    requires same && Significant(raw, |m|) ==> Corresponds(raw, pretty, |m|, at)
    ensures MapOk(raw, pretty, m + [at], j, next, same)
  {
    if same {
      CorrespondOneMore(raw, pretty, m, at);
    }
  }

  /** If both texts are the same once whitespace outside strings is erased, every significant
      byte of raw is mapped to the byte of pretty that corresponds to it. Whatever the texts, the
      map is monotone, strictly so on significant bytes, and any other byte is mapped to just
      after the significant byte before it. */
  method RawToPrettyMap(raw: string, pretty: string) returns (result: seq<int>)
    ensures |result| == |raw| && Chained(raw, result)
    ensures forall i, k :: 0 <= i < k < |raw| ==> EndOf(raw, i, result[i]) <= result[k]
    ensures Strip(raw, OUTSIDE) == Strip(pretty, OUTSIDE) ==>
      forall i :: Significant(raw, i) ==> Corresponds(raw, pretty, i, result[i])
  {
    var m := new int[|raw|];
    var j, inStr, esc := 0, false, false;
    ghost var same := Strip(raw, OUTSIDE) == Strip(pretty, OUTSIDE);
    for i := 0 to |raw|
      invariant MapOk(raw, pretty, m[..i], j, Mode(inStr, esc), same)
    {
      ghost var before, start, mode := m[..i], j, Mode(inStr, esc);
      var at;
      at, j, inStr, esc := MapByte(raw, pretty, i, j, inStr, esc, same);
      m[i] := at;
      assert m[..i + 1] == before + [at];
      MapOneMore(raw, pretty, before, start, at, j, mode, Mode(inStr, esc), same);
    }
    assert m[..|raw|] == m[..];
    result := m[..];
    forall i, k | 0 <= i < k < |raw| ensures EndOf(raw, i, result[i]) <= result[k] {
      ChainedGrows(raw, result, i, k);
    }
  }

  lemma {:induction false} ChainedGrows(raw: string, m: seq<int>, i: nat, k: nat)
    requires Chained(raw, m) && i < k < |m|
    ensures EndOf(raw, i, m[i]) <= m[k]
    decreases k
  {
    if i + 1 < k {
      ChainedGrows(raw, m, i, k - 1);
    }
  }

  /** Maps byte i: where it goes, and the position and mode after it. */
  method MapByte(raw: string, pretty: string, i: nat, start: nat, inStr: bool, esc: bool, ghost same: bool)
    returns (at: nat, j: nat, inStr': bool, esc': bool)
    requires i < |raw| && Mode(inStr, esc) == ModeAt(raw, i)
    requires same ==> Aligned(raw, pretty, i, start, Mode(inStr, esc))
    ensures Mode(inStr', esc') == ModeAt(raw, i + 1)
    ensures at >= start && j == EndOf(raw, i, at) && (!Significant(raw, i) ==> at == start)
    ensures same ==> Aligned(raw, pretty, i + 1, j, Mode(inStr', esc'))
    ensures same && Significant(raw, i) ==> Corresponds(raw, pretty, i, at)
  {
    var c := raw[i];
    ghost var mode := Mode(inStr, esc);
    j, inStr', esc' := start, inStr, esc;
    if !inStr && (c == ' ' || c == '\t' || c == '\n' || c == '\r') {
      StripSkips(raw, i, mode);
      return j, j, inStr, esc;
    }
    StripTakes(raw, i, mode);
    if !inStr {
      j := SkipWhitespace(pretty, j, mode, same, raw, i);
    }
    at := j;
    if same {
      FirstCounts(pretty, j, mode, c, Strip(raw[i + 1..], Advance(mode, c)));
    }
    j := j + 1;
    if esc {
      esc' := false;
    } else if c == '\\' && inStr {
      esc' := true;
    } else if c == '"' {
      inStr' := !inStr;
    }
  }

  /** Moves past whitespace of pretty outside strings. */
  method SkipWhitespace(pretty: string, start: nat, ghost mode: Mode, ghost same: bool, ghost raw: string,
                        ghost i: nat) returns (j: nat)
    requires !mode.inStr && i <= |raw|
    requires same ==> Aligned(raw, pretty, i, start, mode)
    ensures j >= start && (j < |pretty| ==> !IsWs(pretty[j]))
    ensures same ==> Aligned(raw, pretty, i, j, mode)
  {
    j := start;
    while j < |pretty| && (pretty[j] == ' ' || pretty[j] == '\t' || pretty[j] == '\n' || pretty[j] == '\r')
      invariant j >= start
      invariant same ==> Aligned(raw, pretty, i, j, mode)
    {
      StripSkips(pretty, j, mode);
      j := j + 1;
    }
  }

  /** When what is left of pretty strips to c and more, and c is not preceded by whitespace, c is
      the next byte of pretty. */
  lemma FirstCounts(pretty: string, j: nat, mode: Mode, c: char, rest: string)
    requires j <= |pretty| && Strip(pretty[j..], mode) == [c] + rest
    requires mode.inStr || (j < |pretty| ==> !IsWs(pretty[j]))
    ensures j < |pretty| && pretty[j] == c && Counts(mode, pretty[j])
      && Strip(pretty[j + 1..], Advance(mode, c)) == rest
  {
    if j < |pretty| {
      StripTakes(pretty, j, mode);
      assert ([pretty[j]] + Strip(pretty[j + 1..], Advance(mode, pretty[j])))[1..] == ([c] + rest)[1..] == rest;
    }
  }

  // ---------------------------------------------------------------- the order of the bytes

  lemma {:induction false} RankGrows(s: string, i: nat, k: nat)
    requires i < k <= |s|
    ensures Rank(s, i) <= Rank(s, k)
    ensures Significant(s, i) ==> Rank(s, i) < Rank(s, k)
    decreases k - i
  {
    if i + 1 < k {
      RankGrows(s, i, k - 1);
    }
  }

  /** Corresponding bytes are the only ones: the map is determined by what it promises. */
  lemma CorrespondsUnique(raw: string, pretty: string, i: int, j: int, k: int)
    requires Corresponds(raw, pretty, i, j) && Corresponds(raw, pretty, i, k)
    ensures j == k
  {
    if j < k {
      RankGrows(pretty, j, k);
    } else if k < j {
      RankGrows(pretty, k, j);
    }
  }

  // ---------------------------------------------------------------- what is erased

  /** A part of a text: blanks between tokens, one other character, or a whole string literal. */
  datatype Piece = Gap(blanks: string) | Mark(c: char) | Literal(body: string)

  /** A tab, a line feed, a carriage return or a space. */
  predicate Blank(c: char) { c as int in {9, 10, 13, 32} }

  predicate PieceOk(p: Piece) {
    match p
    case Gap(blanks) => forall i :: 0 <= i < |blanks| ==> Blank(blanks[i])
    case Mark(c) => !Blank(c) && c != '"'
    case Literal(body) => LogParse.Escaped(body)
  }

  function Quoted(body: string): string { "\"" + (body + "\"") }

  function TextOf(pieces: seq<Piece>): string {
    if pieces == [] then "" else
      (match pieces[0]
       case Gap(blanks) => blanks
       case Mark(c) => [c]
       case Literal(body) => Quoted(body)) + TextOf(pieces[1..])
  }

  function WithoutGaps(pieces: seq<Piece>): seq<Piece> {
    if pieces == [] then [] else (if pieces[0].Gap? then [] else [pieces[0]]) + WithoutGaps(pieces[1..])
  }

  /** Exactly the blanks between tokens are erased; those in string literals stay, escaped quotes
      and all. */
  lemma {:induction false} ErasesGaps(pieces: seq<Piece>)
    requires forall i :: 0 <= i < |pieces| ==> PieceOk(pieces[i])
    ensures Strip(TextOf(pieces), OUTSIDE) == TextOf(WithoutGaps(pieces))
    decreases |pieces|
  {
    if pieces != [] {
      var rest, more := TextOf(pieces[1..]), WithoutGaps(pieces[1..]);
      ErasesGaps(pieces[1..]);
      assert PieceOk(pieces[0]);
      match pieces[0]
      case Gap(blanks) =>
        GapErased(blanks, rest);
        assert [] + more == more;
      case Mark(c) =>
        assert ([c] + rest)[1..] == rest;
        assert ([pieces[0]] + more)[1..] == more;
      case Literal(body) =>
        QuotedKept(body, rest);
        assert ([pieces[0]] + more)[1..] == more;
    }
  }

  lemma QuotedKept(body: string, rest: string)
    requires LogParse.Escaped(body)
    ensures Strip(Quoted(body) + rest, OUTSIDE) == Quoted(body) + Strip(rest, OUTSIDE)
  {
    var s := body + ("\"" + rest);
    assert Quoted(body) + rest == "\"" + s;
    assert ("\"" + s)[1..] == s;
    LiteralKept(body, rest);
  }

  lemma {:induction false} GapErased(blanks: string, rest: string)
    requires PieceOk(Gap(blanks))
    ensures Strip(blanks + rest, OUTSIDE) == Strip(rest, OUTSIDE)
    decreases |blanks|
  {
    if blanks == "" {
      assert blanks + rest == rest;
    } else {
      GapErased(blanks[1..], rest);
      assert (blanks + rest)[1..] == blanks[1..] + rest;
      assert Blank((blanks + rest)[0]);
    }
  }

  lemma {:induction false} LiteralKept(body: string, rest: string)
    requires LogParse.Escaped(body)
    ensures Strip(body + ("\"" + rest), Mode(true, false)) == body + ("\"" + Strip(rest, OUTSIDE))
    decreases |body|
  {
    var s := body + ("\"" + rest);
    if body == "" {
      assert s == "\"" + rest && s[1..] == rest;
    } else if body[0] == '\\' {
      LiteralKept(body[2..], rest);
      assert s[1..][1..] == s[2..] == body[2..] + ("\"" + rest) && s[1..][0] == body[1];
    } else {
      LiteralKept(body[1..], rest);
      assert s[1..] == body[1..] + ("\"" + rest);
    }
  }

  lemma {:induction false} LeftFrom(s: string, i: nat)
    requires i <= |s|
    ensures Rank(s, i) <= |Strip(s, OUTSIDE)| && Strip(s, OUTSIDE)[Rank(s, i)..] == Strip(s[i..], ModeAt(s, i))
    decreases i
  {
    if i == 0 {
      assert s[0..] == s;
    } else {
      LeftFrom(s, i - 1);
      assert s[i - 1..][1..] == s[i..];
    }
  }

  /** The significant bytes are those that are left, each at the position that its rank says. */
  lemma SignificantIsLeft(s: string, i: nat)
    requires i < |s| && Significant(s, i)
    ensures Rank(s, i) < |Strip(s, OUTSIDE)| == Rank(s, |s|) && Strip(s, OUTSIDE)[Rank(s, i)] == s[i]
  {
    LeftFrom(s, i);
    LeftFrom(s, |s|);
    StripTakes(s, i, ModeAt(s, i));
    assert Strip(s, OUTSIDE)[Rank(s, i)..][0] == s[i];
  }
}
