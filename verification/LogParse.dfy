/** Log-line parsing (internal/agent/logparse.go): the logfmt scanner, plain-text level
    detection, and the choice between formats. A string is a sequence of bytes; letters are
    folded and blanks trimmed as in ASCII, and JSON decoding is a parameter. */
module LogParse {
  // ---------------------------------------------------------------- text

  function LowerChar(c: char): char { if 'A' <= c <= 'Z' then c - 'A' + 'a' else c }
  function UpperChar(c: char): char { if 'a' <= c <= 'z' then c - 'a' + 'A' else c }

  function ToLower(s: string): string { seq(|s|, i requires 0 <= i < |s| => LowerChar(s[i])) }
  function ToUpper(s: string): string { seq(|s|, i requires 0 <= i < |s| => UpperChar(s[i])) }

  predicate IsSpace(c: char) { c == ' ' || '\t' <= c <= '\r' }

  function TrimLeft(s: string): string { if s != "" && IsSpace(s[0]) then TrimLeft(s[1..]) else s }
  function TrimRight(s: string): string { if s != "" && IsSpace(s[|s| - 1]) then TrimRight(s[..|s| - 1]) else s }
  function TrimSpace(s: string): string { TrimRight(TrimLeft(s)) }

  function NormalizeLevel(s: string): string {
    var u := ToUpper(TrimSpace(s));
    if u == "INFO" || u == "INFORMATION" then "INFO"
    else if u == "WARN" || u == "WARNING" then "WARN"
    else if u == "ERR" || u == "ERROR" then "ERR"
    else if u == "DEBUG" || u == "DBG" || u == "TRACE" then "DBUG"
    else if u == "FATAL" || u == "PANIC" then "ERR"
    else ""
  }

  /** How many characters at the front of s are blanks, are not blanks, are part of a key. */
  function Blanks(s: string): (n: nat)
    ensures n <= |s|
  {
    if s != "" && s[0] == ' ' then 1 + Blanks(s[1..]) else 0
  }

  function TokenLen(s: string): (n: nat)
    ensures n <= |s|
  {
    if s != "" && s[0] != ' ' then 1 + TokenLen(s[1..]) else 0
  }

  function KeyLen(s: string): (n: nat)
    ensures n <= |s|
    ensures n < |s| ==> s[n] == '=' || s[n] == ' '
  {
    if s != "" && s[0] != '=' && s[0] != ' ' then 1 + KeyLen(s[1..]) else 0
  }

  /** How far the closing quote is, where a backslash takes the next character with it. */
  function QuotedLen(s: string): (n: nat)
    ensures n <= |s|
  {
    if s == "" || s[0] == '"' then 0
    else if s[0] == '\\' && |s| > 1 then 2 + QuotedLen(s[2..])
    else 1 + QuotedLen(s[1..])
  }

  // ---------------------------------------------------------------- the logfmt scanner

  /** The value at the front of s, just after a '=', and how many characters it takes. */
  function ValueAt(s: string): (v: (string, nat))
    ensures v.1 <= |s|
  {
    if s != "" && s[0] == '"' then
      var n := QuotedLen(s[1..]);
      (s[1..1 + n], if 1 + n < |s| then n + 2 else n + 1)
    else (s[..TokenLen(s)], TokenLen(s))
  }

  /** What the scan meets next: the end of the line, a word without a '=', or a key and its
      value; size is how many characters that takes. */
  datatype Item = End | Word(size: nat) | Field(key: string, value: string, size: nat)

  /** The item at the front of t, which starts with no blank. */
  function ItemAt(t: string): (item: Item)
    requires t == "" || t[0] != ' '
    ensures !item.End? ==> 0 < item.size <= |t|
  {
    var n := KeyLen(t);
    if t == "" then End
    else if n == |t| || t[n] != '=' then Word(n)
    else
      var (value, taken) := ValueAt(t[n + 1..]);
      Field(t[..n], value, n + 1 + taken)
  }

  function After(blanks: nat, item: Item): Item {
    match item
    case End => End
    case Word(size) => Word(blanks + size)
    case Field(key, value, size) => Field(key, value, blanks + size)
  }

  function NextItem(s: string): (item: Item)
    ensures !item.End? ==> 0 < item.size <= |s|
  {
    BlanksThenNone(s);
    After(Blanks(s), ItemAt(s[Blanks(s)..]))
  }

  function Put(want: set<string>, found: map<string, string>, key: string, value: string): map<string, string> {
    if ToLower(key) in want then found[ToLower(key) := value] else found
  }

  /** What a line holds for the wanted keys, on top of what was found before it. */
  function Scan(s: string, want: set<string>, found: map<string, string>): map<string, string>
    decreases |s|
  {
    match NextItem(s)
    case End => found
    case Word(size) => Scan(s[size..], want, found)
    case Field(key, value, size) => Scan(s[size..], want, Put(want, found, key, value))
  }

  lemma BlanksThenNone(s: string)
    ensures Blanks(s) < |s| ==> s[Blanks(s)] != ' '
  {}

  lemma SuffixStep(raw: string, i: nat)
    requires i < |raw|
    ensures raw[i..] != "" && raw[i..][0] == raw[i] && raw[i..][1..] == raw[i + 1..]
  {}

  method SkipBlanks(raw: string, start: nat) returns (i: nat)
    requires start <= |raw|
    ensures i == start + Blanks(raw[start..])
  {
    i := start;
    while i < |raw| && raw[i] == ' '
      invariant start <= i <= |raw| && i + Blanks(raw[i..]) == start + Blanks(raw[start..])
    {
      SuffixStep(raw, i);
      i := i + 1;
    }
  }

  method SkipToken(raw: string, start: nat) returns (i: nat)
    requires start <= |raw|
    ensures i == start + TokenLen(raw[start..])
  {
    i := start;
    while i < |raw| && raw[i] != ' '
      invariant start <= i <= |raw| && i + TokenLen(raw[i..]) == start + TokenLen(raw[start..])
    {
      SuffixStep(raw, i);
      i := i + 1;
    }
  }

  method SkipKey(raw: string, start: nat) returns (i: nat)
    requires start <= |raw|
    ensures i == start + KeyLen(raw[start..])
  {
    i := start;
    while i < |raw| && raw[i] != '=' && raw[i] != ' '
      invariant start <= i <= |raw| && i + KeyLen(raw[i..]) == start + KeyLen(raw[start..])
    {
      SuffixStep(raw, i);
      i := i + 1;
    }
  }

  method SkipQuoted(raw: string, start: nat) returns (i: nat)
    requires start <= |raw|
    ensures i == start + QuotedLen(raw[start..])
  {
    i := start;
    while i < |raw| && raw[i] != '"'
      invariant start <= i <= |raw| && i + QuotedLen(raw[i..]) == start + QuotedLen(raw[start..])
      decreases |raw| - i
    {
      SuffixStep(raw, i);
      if raw[i] == '\\' && i + 1 < |raw| {
        assert raw[i..][2..] == raw[i + 2..];
        i := i + 1;
      }
      i := i + 1;
    }
  }

  /** Reads the value that starts at start; next is where the scan goes on. */
  method ReadValue(raw: string, start: nat) returns (value: string, next: nat)
    requires start <= |raw|
    ensures (value, next - start) == ValueAt(raw[start..]) && start <= next <= |raw|
  {
    if start < |raw| && raw[start] == '"' {
      var i := SkipQuoted(raw, start + 1);
      SuffixStep(raw, start);
      value := raw[start + 1..i];
      assert value == raw[start..][1..i - start];
      next := if i < |raw| then i + 1 else i;
    } else {
      next := SkipToken(raw, start);
      value := raw[start..next];
      assert value == raw[start..][..next - start];
    }
  }

  method ReadItemAt(raw: string, start: nat) returns (item: Item, next: nat)
    requires start <= |raw| && (start < |raw| ==> raw[start] != ' ')
    ensures item == ItemAt(raw[start..]) && (!item.End? ==> next == start + item.size)
  {
    if start >= |raw| {
      return End, start;
    }
    ghost var t := raw[start..];
    var k := SkipKey(raw, start);
    if k >= |raw| || raw[k] != '=' {
      next := SkipToken(raw, k);
      return Word(next - start), next;
    }
    assert raw[k + 1..] == t[k - start + 1..];
    var value;
    value, next := ReadValue(raw, k + 1);
    assert raw[start..k] == t[..k - start];
    return Field(raw[start..k], value, next - start), next;
  }

  method ReadItem(raw: string, i: nat) returns (item: Item, next: nat)
    requires i <= |raw|
    ensures item == NextItem(raw[i..]) && (!item.End? ==> next == i + item.size)
  {
    var start := SkipBlanks(raw, i);
    BlanksThenNone(raw[i..]);
    assert raw[start..] == raw[i..][start - i..];
    item, next := ReadItemAt(raw, start);
    item := After(start - i, item);
  }

  /** The scanner stays in bounds and terminates on every line. */
  method ParseLogfmtFields(raw: string, want: set<string>) returns (result: map<string, string>)
    ensures result == Scan(raw, want, map[])
  {
    result := map[];
    var i := 0;
    assert raw[0..] == raw;
    while i < |raw|
      invariant 0 <= i <= |raw|
      invariant Scan(raw[i..], want, result) == Scan(raw, want, map[])
      decreases |raw| - i
    {
      var item, next := ReadItem(raw, i);
      if item.End? {
        return;
      }
      assert raw[i..][item.size..] == raw[next..];
      if item.Field? && ToLower(item.key) in want {
        result := result[ToLower(item.key) := item.value];
      }
      i := next;
    }
  }

  // ---------------------------------------------------------------- the scanner reads what logfmt writes

  /** One key=value of a line: some blanks before it, and the raw text of its value. */
  datatype Pair = Pair(gap: nat, key: string, quoted: bool, text: string)

  function Repeat(n: nat): string { if n == 0 then "" else " " + Repeat(n - 1) }

  function RenderValue(p: Pair): string { if p.quoted then "\"" + p.text + "\"" else p.text }

  function RenderPair(p: Pair): string {
    Repeat(p.gap) + p.key + "=" + RenderValue(p)
  }

  function Render(pairs: seq<Pair>): string {
    if pairs == [] then "" else RenderPair(pairs[0]) + Render(pairs[1..])
  }

  predicate KeyOk(key: string) { forall i :: 0 <= i < |key| ==> key[i] != '=' && key[i] != ' ' }

  predicate BareOk(text: string) { (forall i :: 0 <= i < |text| ==> text[i] != ' ') && (text != "" ==> text[0] != '"') }

  /** Every quote in the text is escaped, and so is what a backslash at its end would escape. */
  predicate Escaped(text: string) {
    text == "" || (text[0] != '"' && if text[0] == '\\' then |text| > 1 && Escaped(text[2..]) else Escaped(text[1..]))
  }

  predicate PairOk(p: Pair) { KeyOk(p.key) && if p.quoted then Escaped(p.text) else BareOk(p.text) }

  /** A line of space-separated pairs; blanks before the first one are optional. */
  predicate LineOk(pairs: seq<Pair>) {
    (forall i :: 0 <= i < |pairs| ==> PairOk(pairs[i])) && (forall i :: 0 < i < |pairs| ==> pairs[i].gap > 0)
  }

  lemma {:induction false} BlanksOfRepeat(n: nat, rest: string)
    requires rest != "" && rest[0] != ' '
    ensures Blanks(Repeat(n) + rest) == n && (Repeat(n) + rest)[n..] == rest
  {
    if n == 0 {
      assert Repeat(n) + rest == rest;
    } else {
      BlanksOfRepeat(n - 1, rest);
      assert (Repeat(n) + rest)[1..] == Repeat(n - 1) + rest;
    }
  }

  lemma {:induction false} KeyLenOfKey(key: string, rest: string)
    requires KeyOk(key) && rest != "" && rest[0] == '='
    ensures KeyLen(key + rest) == |key|
    decreases |key|
  {
    if key == "" {
      assert key + rest == rest;
    } else {
      assert (key + rest)[1..] == key[1..] + rest;
      KeyLenOfKey(key[1..], rest);
    }
  }

  lemma {:induction false} TokenLenOfText(text: string, rest: string)
    requires (forall i :: 0 <= i < |text| ==> text[i] != ' ') && (rest == "" || rest[0] == ' ')
    ensures TokenLen(text + rest) == |text|
    decreases |text|
  {
    if text == "" {
      assert text + rest == rest;
    } else {
      assert (text + rest)[1..] == text[1..] + rest;
      TokenLenOfText(text[1..], rest);
    }
  }

  lemma {:induction false} QuotedLenOfText(text: string, rest: string)
    requires Escaped(text) && rest != "" && rest[0] == '"'
    ensures QuotedLen(text + rest) == |text|
    decreases |text|
  {
    if text == "" {
      assert text + rest == rest;
    } else if text[0] == '\\' {
      assert (text + rest)[2..] == text[2..] + rest;
      QuotedLenOfText(text[2..], rest);
    } else {
      assert (text + rest)[1..] == text[1..] + rest;
      QuotedLenOfText(text[1..], rest);
    }
  }

  lemma ValueOfPair(p: Pair, rest: string)
    requires PairOk(p) && (rest == "" || rest[0] == ' ')
    ensures ValueAt(RenderValue(p) + rest) == (p.text, |RenderValue(p)|)
  {
    if p.quoted {
      var tail := "\"" + rest;
      var s := ("\"" + p.text + "\"") + rest;
      assert s[1..] == p.text + tail;
      QuotedLenOfText(p.text, tail);
      assert s[1..1 + |p.text|] == p.text;
    } else {
      TokenLenOfText(p.text, rest);
      assert (p.text + rest)[..|p.text|] == p.text;
      assert p.text + rest != "" ==> (p.text + rest)[0] != '"';
    }
  }

  lemma ItemOfField(p: Pair, rest: string)
    requires PairOk(p) && (rest == "" || rest[0] == ' ')
    ensures var t := p.key + ("=" + (RenderValue(p) + rest));
      t[0] != ' ' && ItemAt(t) == Field(p.key, p.text, |p.key| + 1 + |RenderValue(p)|)
  {
    var v := RenderValue(p);
    var tail := "=" + (v + rest);
    var t := p.key + tail;
    KeyLenOfKey(p.key, tail);
    assert t[..|p.key|] == p.key && t[|p.key|] == '=';
    assert t[|p.key| + 1..] == v + rest;
    ValueOfPair(p, rest);
  }

  lemma ItemOfPair(p: Pair, rest: string)
    requires PairOk(p) && (rest == "" || rest[0] == ' ')
    ensures NextItem(RenderPair(p) + rest) == Field(p.key, p.text, |RenderPair(p)|)
  {
    var t := p.key + ("=" + (RenderValue(p) + rest));
    assert RenderPair(p) + rest == Repeat(p.gap) + t;
    ItemOfField(p, rest);
    BlanksOfRepeat(p.gap, t);
    RepeatLen(p.gap);
  }

  lemma {:induction false} RepeatLen(n: nat)
    ensures |Repeat(n)| == n
  {
    if n > 0 { RepeatLen(n - 1); }
  }

  lemma ScanPair(p: Pair, rest: string, want: set<string>, found: map<string, string>)
    requires PairOk(p) && (rest == "" || rest[0] == ' ')
    ensures Scan(RenderPair(p) + rest, want, found) == Scan(rest, want, Put(want, found, p.key, p.text))
  {
    ItemOfPair(p, rest);
    assert (RenderPair(p) + rest)[|RenderPair(p)|..] == rest;
  }

  /** The pairs put in one after the other, so that the last one of a key stays. */
  function PutAll(pairs: seq<Pair>, want: set<string>, found: map<string, string>): map<string, string> {
    if pairs == [] then found else PutAll(pairs[1..], want, Put(want, found, pairs[0].key, pairs[0].text))
  }

  lemma {:induction false} ScanReadsRender(pairs: seq<Pair>, want: set<string>, found: map<string, string>)
    requires LineOk(pairs)
    ensures Scan(Render(pairs), want, found) == PutAll(pairs, want, found)
    decreases |pairs|
  {
    if pairs != [] {
      var p, rest := pairs[0], Render(pairs[1..]);
      assert rest == "" || rest[0] == ' ' by {
        if |pairs| > 1 {
          assert pairs[1..][0] == pairs[1] && Repeat(pairs[1].gap)[0] == ' ';
        }
      }
      ScanPair(p, rest, want, found);
      ScanReadsRender(pairs[1..], want, Put(want, found, p.key, p.text));
    }
  }

  /** Pair i gives the value of the key: it has the key, up to case, and no later one does. */
  predicate IsLast(pairs: seq<Pair>, key: string, i: int) {
    0 <= i < |pairs| && ToLower(pairs[i].key) == key && forall j :: i < j < |pairs| ==> ToLower(pairs[j].key) != key
  }

  lemma {:induction false} PutAllKeepsLast(pairs: seq<Pair>, want: set<string>, found: map<string, string>, key: string)
    ensures key in PutAll(pairs, want, found) <==> key in found || (key in want && exists i :: IsLast(pairs, key, i))
    ensures forall i :: key in want && IsLast(pairs, key, i) ==>
      key in PutAll(pairs, want, found) && PutAll(pairs, want, found)[key] == pairs[i].text
    ensures key in found && (key !in want || !exists i :: IsLast(pairs, key, i)) ==>
      PutAll(pairs, want, found)[key] == found[key]
    decreases |pairs|
  {
    if pairs != [] {
      var rest := pairs[1..];
      var next := Put(want, found, pairs[0].key, pairs[0].text);
      PutAllKeepsLast(rest, want, next, key);
      LastExists(rest, key);
      if exists i :: IsLast(rest, key, i) {
        var i :| IsLast(rest, key, i);
        assert IsLast(pairs, key, i + 1);
      } else if ToLower(pairs[0].key) == key {
        assert IsLast(pairs, key, 0);
      }
      forall i | key in want && IsLast(pairs, key, i)
        ensures key in PutAll(pairs, want, found) && PutAll(pairs, want, found)[key] == pairs[i].text
      {
        if i > 0 {
          assert IsLast(rest, key, i - 1) && rest[i - 1] == pairs[i];
        } else {
          assert forall j :: !IsLast(rest, key, j);
        }
      }
    }
  }

  /** If any pair has the key, one of them is the last. */
  lemma {:induction false} LastExists(pairs: seq<Pair>, key: string)
    ensures (exists i :: IsLast(pairs, key, i)) <==> exists i :: 0 <= i < |pairs| && ToLower(pairs[i].key) == key
    decreases |pairs|
  {
    if pairs != [] {
      var n := |pairs| - 1;
      if ToLower(pairs[n].key) == key {
        assert IsLast(pairs, key, n);
      } else {
        LastExists(pairs[..n], key);
        if exists i :: IsLast(pairs[..n], key, i) {
          var i :| IsLast(pairs[..n], key, i);
          forall j | i < j < |pairs| ensures ToLower(pairs[j].key) != key {
            assert j < n ==> pairs[..n][j] == pairs[j];
          }
          assert IsLast(pairs, key, i);
        }
        if exists i :: 0 <= i < |pairs| && ToLower(pairs[i].key) == key {
          var i :| 0 <= i < |pairs| && ToLower(pairs[i].key) == key;
          assert pairs[..n][i] == pairs[i];
        }
      }
    }
  }

  /** On a line of space-separated pairs the scanner finds, for each wanted key up to case,
      exactly the raw text of the last value given for it. */
  lemma LogfmtRoundTrip(pairs: seq<Pair>, want: set<string>)
    requires LineOk(pairs)
    ensures var found := Scan(Render(pairs), want, map[]);
      && (forall key :: key in found <==> key in want && exists i :: 0 <= i < |pairs| && ToLower(pairs[i].key) == key)
      && (forall key, i :: key in want && IsLast(pairs, key, i) ==> key in found && found[key] == pairs[i].text)
  {
    ScanReadsRender(pairs, want, map[]);
    forall key
      ensures key in PutAll(pairs, want, map[]) <==>
        key in want && exists i :: 0 <= i < |pairs| && ToLower(pairs[i].key) == key
      ensures forall i :: key in want && IsLast(pairs, key, i) ==>
        key in PutAll(pairs, want, map[]) && PutAll(pairs, want, map[])[key] == pairs[i].text
    {
      PutAllKeepsLast(pairs, want, map[], key);
      LastExists(pairs, key);
    }
  }
}
