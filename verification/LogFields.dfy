/** The level and display message of a log line, in whichever format it is written
    (internal/agent/logparse.go). The result of JSON decoding is a parameter: for a line that
    decodes to an object, the printed value of each of its members. */
module LogFields {
  import opened Options
  import opened LogParse

  type Decoder = string -> Option<map<string, string>>

  // ---------------------------------------------------------------- plain text

  predicate ContainsDigit(s: string) { exists i :: 0 <= i < |s| && '0' <= s[i] <= '9' }

  predicate IsAllUpper(s: string) { forall i :: 0 <= i < |s| ==> !('a' <= s[i] <= 'z') }

  /** The inside of [..] or (..). */
  function UnwrapLevel(token: string): Option<string> {
    if |token| >= 3 && ((token[0] == '[' && token[|token| - 1] == ']') ||
                        (token[0] == '(' && token[|token| - 1] == ')'))
    then Some(token[1..|token| - 1]) else None
  }

  /** After a timestamp any case will do; otherwise capitals or a trailing colon are needed. */
  function MatchLevel(token: string, relaxed: bool): string {
    if relaxed then NormalizeLevel(token)
    else if |token| > 1 && token[|token| - 1] == ':' then NormalizeLevel(token[..|token| - 1])
    else if IsAllUpper(token) then NormalizeLevel(token)
    else ""
  }

  function WrappedLevel(token: string): string {
    var inner := UnwrapLevel(token);
    if inner.Some? then NormalizeLevel(inner.value) else ""
  }

  /** What follows a level, or the whole line if nothing does. */
  function RestOr(tail: string, msg: string): string {
    if TrimSpace(tail) == "" then msg else TrimSpace(tail)
  }

  /** Looks at the tokens of s, the part of the line not yet looked at. */
  function Plain(msg: string, s: string, sawTimestamp: bool): (string, string)
    decreases |s|
  {
    var t := s[Blanks(s)..];
    BlanksThenNone(s);
    var token, tail := t[..TokenLen(t)], t[TokenLen(t)..];
    if t == "" then ("", msg)
    else if WrappedLevel(token) != "" then (WrappedLevel(token), RestOr(tail, msg))
    else if ContainsDigit(token) then Plain(msg, tail, true)
    else if MatchLevel(token, sawTimestamp) != "" then (MatchLevel(token, sawTimestamp), RestOr(tail, msg))
    else ("", msg)
  }

  method HasDigit(s: string) returns (b: bool)
    ensures b == ContainsDigit(s)
  {
    for i := 0 to |s|
      invariant forall j :: 0 <= j < i ==> !('0' <= s[j] <= '9')
    {
      if '0' <= s[i] <= '9' {
        return true;
      }
    }
    return false;
  }

  method HasNoLowerCase(s: string) returns (b: bool)
    ensures b == IsAllUpper(s)
  {
    for i := 0 to |s|
      invariant forall j :: 0 <= j < i ==> !('a' <= s[j] <= 'z')
    {
      if 'a' <= s[i] <= 'z' {
        return false;
      }
    }
    return true;
  }

  method FindLevel(token: string, relaxed: bool) returns (level: string)
    ensures level == MatchLevel(token, relaxed)
  {
    if relaxed {
      return NormalizeLevel(token);
    }
    if |token| > 1 && token[|token| - 1] == ':' {
      return NormalizeLevel(token[..|token| - 1]);
    }
    var upper := HasNoLowerCase(token);
    return if upper then NormalizeLevel(token) else "";
  }

  /** The part of a line between two positions, and the rest of it. */
  lemma RestFrom(msg: string, i: nat, j: nat)
    requires i <= j <= |msg|
    ensures msg[i..j] == msg[i..][..j - i] && msg[j..] == msg[i..][j - i..]
  {}

  method ParsePlainLevel(msg: string) returns (level: string, displayMsg: string)
    ensures (level, displayMsg) == Plain(msg, msg, false)
  {
    var i, sawTimestamp := 0, false;
    assert msg[0..] == msg;
    while i < |msg|
      invariant 0 <= i <= |msg|
      invariant Plain(msg, msg[i..], sawTimestamp) == Plain(msg, msg, false)
      decreases |msg| - i
    {
      var start := SkipBlanks(msg, i);
      RestFrom(msg, i, start);
      BlanksThenNone(msg[i..]);
      if start >= |msg| {
        break;
      }
      i := SkipToken(msg, start);
      var token := msg[start..i];
      RestFrom(msg, start, i);
      var inner := UnwrapLevel(token);
      if inner.Some? {
        var lvl := NormalizeLevel(inner.value);
        if lvl != "" {
          return lvl, RestOr(msg[i..], msg);
        }
      }
      var digit := HasDigit(token);
      if digit {
        sawTimestamp := true;
        continue;
      }
      var lvl := FindLevel(token, sawTimestamp);
      if lvl != "" {
        return lvl, RestOr(msg[i..], msg);
      }
      return "", msg;
    }
    return "", msg;
  }

  // ---------------------------------------------------------------- all formats

  /** The value of the first of these keys that is present, or nothing. */
  function FirstOf(m: map<string, string>, keys: seq<string>): Option<string> {
    if keys == [] then None
    else if keys[0] in m then Some(m[keys[0]])
    else FirstOf(m, keys[1..])
  }

  function LevelOf(m: map<string, string>): string {
    var v := FirstOf(m, ["level", "lvl"]);
    if v.Some? then NormalizeLevel(v.value) else ""
  }

  function MessageOf(m: map<string, string>, keys: seq<string>): string {
    var v := FirstOf(m, keys);
    if v.Some? then v.value else ""
  }

  const LOGFMT_KEYS := {"level", "lvl", "msg", "message"}

  /** A structured line counts only if it has a level or a message. */
  function Structured(level: string, text: string, message: string): Option<(string, string)> {
    if level == "" && text == "" then None else Some((level, if text == "" then message else text))
  }

  function Json(message: string, decode: Decoder): Option<(string, string)> {
    if |message| > 0 && message[0] == '{' && decode(message).Some?
    then Structured(LevelOf(decode(message).value), MessageOf(decode(message).value, ["msg", "message", "error"]),
                    message)
    else None
  }

  function Logfmt(message: string): Option<(string, string)> {
    if '=' in message
    then Structured(LevelOf(Scan(message, LOGFMT_KEYS, map[])),
                    MessageOf(Scan(message, LOGFMT_KEYS, map[]), ["msg", "message"]), message)
    else None
  }

  /** The level and display message of a line: JSON first, then logfmt, then plain text. */
  function Parsed(message: string, decode: Decoder): (string, string) {
    if Json(message, decode).Some? then Json(message, decode).value
    else if Logfmt(message).Some? then Logfmt(message).value
    else if Plain(message, message, false).0 != "" then Plain(message, message, false)
    else ("", message)
  }

  method FindFirst(m: map<string, string>, keys: seq<string>) returns (v: Option<string>)
    ensures v == FirstOf(m, keys)
  {
    assert keys[0..] == keys;
    for i := 0 to |keys|
      invariant FirstOf(m, keys[i..]) == FirstOf(m, keys)
    {
      if keys[i] in m {
        return Some(m[keys[i]]);
      }
      assert keys[i..][1..] == keys[i + 1..];
    }
    return None;
  }

  method ParseLogFields(message: string, decode: Decoder) returns (level: string, displayMsg: string)
    ensures (level, displayMsg) == Parsed(message, decode)
  {
    level, displayMsg := "", "";
    if |message| > 0 && message[0] == '{' {
      var m := decode(message);
      if m.Some? {
        var v := FindFirst(m.value, ["level", "lvl"]);
        if v.Some? {
          level := NormalizeLevel(v.value);
        }
        v := FindFirst(m.value, ["msg", "message", "error"]);
        if v.Some? {
          displayMsg := v.value;
        }
        if level != "" || displayMsg != "" {
          if displayMsg == "" {
            displayMsg := message;
          }
          return;
        }
      }
    }
    if '=' in message {
      var fields := ParseLogfmtFields(message, LOGFMT_KEYS);
      var v := FindFirst(fields, ["level", "lvl"]);
      if v.Some? {
        level := NormalizeLevel(v.value);
      }
      v := FindFirst(fields, ["msg", "message"]);
      if v.Some? {
        displayMsg := v.value;
      }
      if level != "" || displayMsg != "" {
        if displayMsg == "" {
          displayMsg := message;
        }
        return;
      }
    }
    level, displayMsg := ParsePlainLevel(message);
    if level != "" {
      return;
    }
    return "", message;
  }

  lemma {:induction false} PlainMessageKept(msg: string, s: string, sawTimestamp: bool)
    ensures msg != "" ==> Plain(msg, s, sawTimestamp).1 != ""
    ensures s == "" ==> Plain(msg, s, sawTimestamp) == ("", msg)
    decreases |s|
  {
    var t := s[Blanks(s)..];
    BlanksThenNone(s);
    if t != "" {
      PlainMessageKept(msg, t[TokenLen(t)..], true);
    }
  }

  /** Whatever JSON decoding gives, the display message is empty only for the empty line. */
  lemma DisplayMessageEmptyIff(message: string, decode: Decoder)
    ensures Parsed(message, decode).1 == "" <==> message == ""
  {
    PlainMessageKept(message, message, false);
  }

  /** The level is always one of the four normalized ones, or none. */
  lemma {:induction false} PlainLevelNormalized(msg: string, s: string, sawTimestamp: bool)
    ensures Plain(msg, s, sawTimestamp).0 in {"INFO", "WARN", "ERR", "DBUG", ""}
    decreases |s|
  {
    var t := s[Blanks(s)..];
    BlanksThenNone(s);
    if t != "" {
      PlainLevelNormalized(msg, t[TokenLen(t)..], true);
    }
  }

  lemma LevelNormalized(message: string, decode: Decoder)
    ensures Parsed(message, decode).0 in {"INFO", "WARN", "ERR", "DBUG", ""}
  {
    PlainLevelNormalized(message, message, false);
  }

  // ---------------------------------------------------------------- timestamped lines

  /** A token without blanks that has a digit and is not a wrapped level. */
  predicate IsStamp(token: string) {
    ContainsDigit(token) && WrappedLevel(token) == "" && forall i :: 0 <= i < |token| ==> token[i] != ' '
  }

  /** The tokens, each followed by a blank. */
  function Spaced(tokens: seq<string>): string {
    if tokens == [] then "" else tokens[0] + " " + Spaced(tokens[1..])
  }

  /** On a line of timestamp tokens, then a level in any case, then the rest, the level is found
      and the display message is the rest, however many tokens the timestamp has. */
  lemma TimestampedLevelFound(stamps: seq<string>, word: string, rest: string, msg: string, saw: bool)
    requires (forall i :: 0 <= i < |stamps| ==> IsStamp(stamps[i])) && (saw || stamps != [])
    requires word != "" && NormalizeLevel(word) != "" && WrappedLevel(word) == "" && !ContainsDigit(word)
    requires (forall i :: 0 <= i < |word| ==> word[i] != ' ') && (rest == "" || rest[0] == ' ')
    ensures Plain(msg, Spaced(stamps) + word + rest, saw) == (NormalizeLevel(word), RestOr(rest, msg))
  {
    assert Spaced(stamps) + word + rest == Spaced(stamps) + (word + rest);
    StampsSkipped(stamps, word + rest, msg, saw);
    FirstToken(msg, word, rest, true);
  }

  lemma {:induction false} StampsSkipped(stamps: seq<string>, tail: string, msg: string, saw: bool)
    requires forall i :: 0 <= i < |stamps| ==> IsStamp(stamps[i])
    ensures Plain(msg, Spaced(stamps) + tail, saw) == Plain(msg, tail, saw || stamps != [])
    decreases |stamps|
  {
    if stamps == [] {
      assert Spaced(stamps) + tail == tail;
    } else {
      var more := Spaced(stamps[1..]) + tail;
      assert Spaced(stamps) + tail == stamps[0] + (" " + more);
      StampSkipped(msg, stamps[0], more, saw);
      StampsSkipped(stamps[1..], tail, msg, true);
    }
  }

  lemma StampSkipped(msg: string, stamp: string, more: string, saw: bool)
    requires IsStamp(stamp)
    ensures Plain(msg, stamp + (" " + more), saw) == Plain(msg, more, true)
  {
    FirstToken(msg, stamp, " " + more, saw);
    LeadingBlank(msg, more, true);
  }

  /** What the first token decides. */
  lemma FirstToken(msg: string, token: string, tail: string, saw: bool)
    requires token != "" && (forall i :: 0 <= i < |token| ==> token[i] != ' ') && (tail == "" || tail[0] == ' ')
    ensures Plain(msg, token + tail, saw) ==
      if WrappedLevel(token) != "" then (WrappedLevel(token), RestOr(tail, msg))
      else if ContainsDigit(token) then Plain(msg, tail, true)
      else if MatchLevel(token, saw) != "" then (MatchLevel(token, saw), RestOr(tail, msg))
      else ("", msg)
  {
    var s := token + tail;
    TokenLenOfText(token, tail);
    assert s[0] != ' ' && s[0..] == s && s[..|token|] == token && s[|token|..] == tail;
  }

  lemma LeadingBlank(msg: string, s: string, saw: bool)
    ensures Plain(msg, " " + s, saw) == Plain(msg, s, saw)
  {}
}
