/** What log lines mean, told from their words (internal/agent/logparse.go): which words are levels,
    which token of a plain line decides, and what JSON and logfmt lines give. */
module LogLines {
  import opened Options
  import opened LogParse
  import opened LogFields

  // ---------------------------------------------------------------- letters and blanks

  predicate Capital(c: char) { 65 <= c as int <= 90 }
  predicate Small(c: char) { 97 <= c as int <= 122 }
  predicate Digit(c: char) { 48 <= c as int <= 57 }

  /** Folding takes a letter to the one in the same place of the other alphabet, and leaves others. */
  lemma LettersFold(c: char)
    ensures LowerChar(c) as int == if Capital(c) then c as int + 32 else c as int
    ensures UpperChar(c) as int == if Small(c) then c as int - 32 else c as int
  {}

  lemma FoldsEachChar(s: string)
    ensures |ToLower(s)| == |s| == |ToUpper(s)|
    ensures forall i :: 0 <= i < |s| ==> ToLower(s)[i] == LowerChar(s[i]) && ToUpper(s)[i] == UpperChar(s[i])
  {}

  /** A space, a tab, a line feed, a vertical tab, a form feed or a carriage return. */
  predicate BlankChar(c: char) { c as int == 32 || c as int in {9, 10, 11, 12, 13} }

  predicate AllBlank(s: string) { forall i :: 0 <= i < |s| ==> BlankChar(s[i]) }

  lemma {:induction false} TrimLeftIs(s: string) returns (a: string)
    ensures AllBlank(a) && s == a + TrimLeft(s) && (TrimLeft(s) != "" ==> !BlankChar(TrimLeft(s)[0]))
    decreases |s|
  {
    a := "";
    if s != "" && IsSpace(s[0]) {
      var b := TrimLeftIs(s[1..]);
      a := [s[0]] + b;
      assert s == [s[0]] + s[1..];
    }
  }

  lemma {:induction false} TrimRightIs(s: string) returns (b: string)
    ensures AllBlank(b) && s == TrimRight(s) + b
    ensures TrimRight(s) != "" ==> !BlankChar(TrimRight(s)[|TrimRight(s)| - 1])
    decreases |s|
  {
    b := "";
    var n := |s| - 1;
    if s != "" && IsSpace(s[n]) {
      var c := TrimRightIs(s[..n]);
      b := c + [s[n]];
      assert TrimRight(s) == TrimRight(s[..n]);
      assert s == s[..n] + [s[n]] == TrimRight(s) + b;
    }
  }

  /** Trimming drops the blanks around a text and nothing else. */
  lemma TrimIs(s: string) returns (a: string, b: string)
    ensures var t := TrimSpace(s);
      && AllBlank(a) && AllBlank(b) && s == a + t + b
      && (t != "" ==> !BlankChar(t[0]) && !BlankChar(t[|t| - 1]))
  {
    a := TrimLeftIs(s);
    b := TrimRightIs(TrimLeft(s));
    var t := TrimSpace(s);
    assert s == a + (t + b);
    assert t != "" ==> t[0] == TrimLeft(s)[0];
  }

  // ---------------------------------------------------------------- levels

  /** The words for levels, in any case, and the level each stands for. */
  const LEVELS := map["info" := "INFO", "information" := "INFO", "warn" := "WARN", "warning" := "WARN",
                      "err" := "ERR", "error" := "ERR", "fatal" := "ERR", "panic" := "ERR",
                      "debug" := "DBUG", "dbg" := "DBUG", "trace" := "DBUG"]

  /** The level that a word stands for, if any. */
  function LevelFor(word: string): string {
    var w := ToLower(TrimSpace(word));
    if w in LEVELS then LEVELS[w] else ""
  }

  /** low is up in small letters. */
  predicate SameWord(up: string, low: string) {
    |up| == |low| && forall i :: 0 <= i < |up| ==> Capital(up[i]) && low[i] as int == up[i] as int + 32
  }

  lemma EitherCase(x: string, up: string, low: string)
    requires SameWord(up, low)
    ensures ToUpper(x) == up <==> ToLower(x) == low
  {
    FoldsEachChar(x);
    if ToUpper(x) == up {
      assert forall i :: 0 <= i < |x| ==> ToLower(x)[i] == low[i];
    }
    if ToLower(x) == low {
      assert forall i :: 0 <= i < |x| ==> ToUpper(x)[i] == up[i];
    }
  }

  /** One text in capitals and in small letters, as far as the words for levels go. */
  predicate SameText(up: string, low: string) {
    && (up == "INFO" <==> low == "info") && (up == "INFORMATION" <==> low == "information")
    && (up == "WARN" <==> low == "warn") && (up == "WARNING" <==> low == "warning")
    && (up == "ERR" <==> low == "err") && (up == "ERROR" <==> low == "error")
    && (up == "FATAL" <==> low == "fatal") && (up == "PANIC" <==> low == "panic")
    && (up == "DEBUG" <==> low == "debug") && (up == "DBG" <==> low == "dbg") && (up == "TRACE" <==> low == "trace")
  }

  lemma FoldsAlike(x: string)
    ensures SameText(ToUpper(x), ToLower(x))
  {
    InfoFoldsAlike(x);
    WarnFoldsAlike(x);
    ErrFoldsAlike(x);
    DebugFoldsAlike(x);
  }

  lemma InfoFoldsAlike(x: string)
    ensures ToUpper(x) == "INFO" <==> ToLower(x) == "info"
    ensures ToUpper(x) == "INFORMATION" <==> ToLower(x) == "information"
  {
    EitherCase(x, "INFO", "info");
    EitherCase(x, "INFORMATION", "information");
  }

  lemma WarnFoldsAlike(x: string)
    ensures ToUpper(x) == "WARN" <==> ToLower(x) == "warn"
    ensures ToUpper(x) == "WARNING" <==> ToLower(x) == "warning"
  {
    EitherCase(x, "WARN", "warn");
    EitherCase(x, "WARNING", "warning");
  }

  lemma ErrFoldsAlike(x: string)
    ensures ToUpper(x) == "ERR" <==> ToLower(x) == "err"
    ensures ToUpper(x) == "ERROR" <==> ToLower(x) == "error"
    ensures ToUpper(x) == "FATAL" <==> ToLower(x) == "fatal"
    ensures ToUpper(x) == "PANIC" <==> ToLower(x) == "panic"
  {
    EitherCase(x, "ERR", "err");
    EitherCase(x, "ERROR", "error");
    EitherCase(x, "FATAL", "fatal");
    EitherCase(x, "PANIC", "panic");
  }

  lemma DebugFoldsAlike(x: string)
    ensures ToUpper(x) == "DEBUG" <==> ToLower(x) == "debug"
    ensures ToUpper(x) == "DBG" <==> ToLower(x) == "dbg"
    ensures ToUpper(x) == "TRACE" <==> ToLower(x) == "trace"
  {
    EitherCase(x, "DEBUG", "debug");
    EitherCase(x, "DBG", "dbg");
    EitherCase(x, "TRACE", "trace");
  }

  /** A word is normalized to the level it stands for, and any other text to none. */
  lemma LevelIsNamed(s: string)
    ensures NormalizeLevel(s) == LevelFor(s)
  {
    FoldsAlike(TrimSpace(s));
  }

  // ---------------------------------------------------------------- plain lines

  predicate HasDigits(s: string) { exists i :: 0 <= i < |s| && Digit(s[i]) }
  predicate HasSmall(s: string) { exists i :: 0 <= i < |s| && Small(s[i]) }

  lemma DigitsAndCapitals(s: string)
    ensures ContainsDigit(s) <==> HasDigits(s)
    ensures IsAllUpper(s) <==> !HasSmall(s)
  {}

  /** The token is this word in brackets or parentheses. */
  predicate Wraps(token: string, word: string) {
    word != "" && (token == "[" + word + "]" || token == "(" + word + ")")
  }

  /** The token is a word for a level in brackets or parentheses, which then is this level. */
  ghost predicate WrapsLevel(token: string, level: string) {
    level != "" && exists word :: Wraps(token, word) && LevelFor(word) == level
  }

  lemma WrappedIff(token: string)
    ensures forall level :: WrapsLevel(token, level) <==> level != "" && WrappedLevel(token) == level
  {
    forall word | Wraps(token, word) ensures UnwrapLevel(token) == Some(word) {
      assert token[1..|token| - 1] == word;
    }
    if UnwrapLevel(token).Some? {
      var word := UnwrapLevel(token).value;
      assert token == [token[0]] + word + [token[|token| - 1]];
      assert Wraps(token, word);
      LevelIsNamed(word);
    }
  }

  /** The level a token stands for where it decides: in brackets or parentheses any word for a
      level does; otherwise, after a timestamp, the word itself in any case; and before any, the
      word with a colon after it, or else the word without small letters. */
  ghost predicate Decides(token: string, stamped: bool, level: string) {
    if exists l :: WrapsLevel(token, l) then WrapsLevel(token, level)
    else if stamped then level == LevelFor(token)
    else if |token| > 1 && token[|token| - 1] == ':' then level == LevelFor(token[..|token| - 1])
    else level == if HasSmall(token) then "" else LevelFor(token)
  }

  /** On a plain line the first token that is not part of a timestamp, that is, has no digit or is a
      level in brackets, decides: if it stands for a level, that is the line's level, and the rest
      of the line, if there is any, its message; otherwise the line has no level. */
  lemma FirstWordDecides(stamps: seq<string>, token: string, rest: string, level: string)
    requires forall i :: 0 <= i < |stamps| ==> IsStamp(stamps[i])
    requires token != "" && (forall i :: 0 <= i < |token| ==> token[i] != ' ') && (rest == "" || rest[0] == ' ')
    requires !HasDigits(token) || exists l :: WrapsLevel(token, l)
    requires Decides(token, stamps != [], level)
    ensures var line := Spaced(stamps) + token + rest;
      Plain(line, line, false) == Outcome(level, rest, line)
  {
    WordDecides(stamps, token, rest, level, Spaced(stamps) + token + rest);
  }

  lemma WordDecides(stamps: seq<string>, token: string, rest: string, level: string, msg: string)
    requires forall i :: 0 <= i < |stamps| ==> IsStamp(stamps[i])
    requires token != "" && (forall i :: 0 <= i < |token| ==> token[i] != ' ') && (rest == "" || rest[0] == ' ')
    requires !HasDigits(token) || exists l :: WrapsLevel(token, l)
    requires Decides(token, stamps != [], level)
    ensures Plain(msg, Spaced(stamps) + token + rest, false) == Outcome(level, rest, msg)
  {
    assert Spaced(stamps) + token + rest == Spaced(stamps) + (token + rest);
    StampsSkipped(stamps, token + rest, msg, false);
    DecidesWhat(token, stamps != [], level);
    FirstIs(msg, token, rest, stamps != [], level);
  }

  function Outcome(level: string, rest: string, msg: string): (string, string) {
    (level, if level == "" || TrimSpace(rest) == "" then msg else TrimSpace(rest))
  }

  lemma FirstIs(msg: string, token: string, rest: string, saw: bool, level: string)
    requires token != "" && (forall i :: 0 <= i < |token| ==> token[i] != ' ') && (rest == "" || rest[0] == ' ')
    requires if WrappedLevel(token) != "" then level == WrappedLevel(token)
             else !ContainsDigit(token) && level == MatchLevel(token, saw)
    ensures Plain(msg, token + rest, saw) == Outcome(level, rest, msg)
  {
    FirstToken(msg, token, rest, saw);
  }

  lemma DecidesWhat(token: string, stamped: bool, level: string)
    requires token != "" && (!HasDigits(token) || exists l :: WrapsLevel(token, l)) && Decides(token, stamped, level)
    ensures if WrappedLevel(token) != "" then level == WrappedLevel(token)
            else !ContainsDigit(token) && level == MatchLevel(token, stamped)
  {
    WrappedIff(token);
    DigitsAndCapitals(token);
    if WrappedLevel(token) != "" {
      assert WrapsLevel(token, WrappedLevel(token));
    } else {
      MatchesAs(token, stamped);
    }
  }

  lemma MatchesAs(token: string, stamped: bool)
    ensures MatchLevel(token, stamped) ==
      if stamped then LevelFor(token)
      else if |token| > 1 && token[|token| - 1] == ':' then LevelFor(token[..|token| - 1])
      else if HasSmall(token) then "" else LevelFor(token)
  {
    DigitsAndCapitals(token);
    LevelIsNamed(token);
    if |token| > 1 { LevelIsNamed(token[..|token| - 1]); }
  }

  /** A token is part of a timestamp exactly if it has a digit and is not a level in brackets. */
  lemma StampIff(token: string)
    ensures IsStamp(token) <==>
      HasDigits(token) && (forall l :: !WrapsLevel(token, l)) && forall i :: 0 <= i < |token| ==> token[i] != ' '
  {
    DigitsAndCapitals(token);
    WrappedIff(token);
    if WrappedLevel(token) != "" { assert WrapsLevel(token, WrappedLevel(token)); }
  }

  // ---------------------------------------------------------------- all formats

  /** The level and text of a structured line: the first keys present decide. */
  function FieldsOf(m: map<string, string>, json: bool): (string, string) {
    (if "level" in m then LevelFor(m["level"]) else if "lvl" in m then LevelFor(m["lvl"]) else "",
     if "msg" in m then m["msg"] else if "message" in m then m["message"]
     else if json && "error" in m then m["error"] else "")
  }

  /** A line that begins like a JSON object and decodes is that object's, if it has a level or text. */
  predicate IsJson(message: string, decode: Decoder) {
    message != "" && message[0] == '{' && decode(message).Some? && FieldsOf(decode(message).value, true) != ("", "")
  }

  predicate IsLogfmt(message: string) {
    '=' in message && FieldsOf(Scan(message, {"level", "lvl", "msg", "message"}, map[]), false) != ("", "")
  }

  lemma FieldsAre(m: map<string, string>, json: bool)
    ensures FieldsOf(m, json) ==
      (LevelOf(m), MessageOf(m, if json then ["msg", "message", "error"] else ["msg", "message"]))
  {
    if "level" in m { LevelIsNamed(m["level"]); }
    if "lvl" in m { LevelIsNamed(m["lvl"]); }
    FirstOfMany(m, "level", ["lvl"]);
    FirstOfMany(m, "lvl", []);
    FirstOfMany(m, "msg", ["message", "error"]);
    FirstOfMany(m, "message", ["error"]);
    FirstOfMany(m, "error", []);
    FirstOfMany(m, "msg", ["message"]);
    FirstOfMany(m, "message", []);
    assert ["level"] + ["lvl"] == ["level", "lvl"] && ["lvl"] + [] == ["lvl"];
    assert ["msg"] + ["message", "error"] == ["msg", "message", "error"] && ["msg"] + ["message"] == ["msg", "message"];
    assert ["message"] + ["error"] == ["message", "error"];
    assert ["message"] + [] == ["message"] && ["error"] + [] == ["error"];
  }

  lemma FirstOfMany(m: map<string, string>, key: string, more: seq<string>)
    ensures FirstOf(m, [key] + more) == if key in m then Some(m[key]) else FirstOf(m, more)
  {
    assert ([key] + more)[1..] == more;
  }

  /** A line is taken as JSON if it can be, otherwise as logfmt if it can be, and otherwise as
      plain text; a structured line without text keeps the whole line as its message. */
  lemma LineIsParsedAs(message: string, decode: Decoder)
    ensures IsJson(message, decode) ==>
      var (level, text) := FieldsOf(decode(message).value, true);
      Parsed(message, decode) == (level, if text == "" then message else text)
    ensures !IsJson(message, decode) && IsLogfmt(message) ==>
      var (level, text) := FieldsOf(Scan(message, {"level", "lvl", "msg", "message"}, map[]), false);
      Parsed(message, decode) == (level, if text == "" then message else text)
    ensures !IsJson(message, decode) && !IsLogfmt(message) ==>
      Parsed(message, decode) ==
        if Plain(message, message, false).0 == "" then ("", message) else Plain(message, message, false)
  {
    if message != "" && decode(message).Some? { FieldsAre(decode(message).value, true); }
    FieldsAre(Scan(message, {"level", "lvl", "msg", "message"}, map[]), false);
  }
}
