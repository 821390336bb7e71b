/** The fixed-width date and time input of the client (internal/tui/detail_log.go). The text of
    the current time in the field's format is a parameter. */
module Masked {
  predicate IsDigit(c: char) { '0' <= c <= '9' }

  /** The contents of a field; the four sequences have one element per slot. */
  datatype Field = Field(slots: seq<char>, defaults: seq<char>, editable: seq<bool>, typed: seq<bool>, cursor: nat,
                         touched: bool)

  /** The first editable slot from c on, or the end. */
  function NextEditable(editable: seq<bool>, c: nat): (n: nat)
    requires c <= |editable|
    ensures c <= n <= |editable| && (n < |editable| ==> editable[n]) && forall i :: c <= i < n ==> !editable[i]
    decreases |editable| - c
  {
    if c < |editable| && !editable[c] then NextEditable(editable, c + 1) else c
  }

  /** The last editable slot before c, or -1. */
  function PrevEditable(editable: seq<bool>, c: nat): (p: int)
    requires c <= |editable|
    ensures -1 <= p < c && (p >= 0 ==> editable[p]) && forall i :: p < i < c ==> !editable[i]
  {
    if c == 0 then -1 else if editable[c - 1] then c - 1 else PrevEditable(editable, c - 1)
  }

  function Min(a: nat, b: nat): nat { if a < b then a else b }

  /** A fresh field: the digits of the format are editable and start as in the current time,
      everything else is literal. */
  function Fresh(format: string, now: string): Field {
    var n := Min(|format|, |now|);
    var editable := seq(n, i requires 0 <= i < n => IsDigit(format[i]));
    Field(seq(n, i requires 0 <= i < n => if IsDigit(format[i]) then now[i] else format[i]),
          now[..n], editable, seq(n, i => false), NextEditable(editable, 0), false)
  }

  function AfterRune(f: Field, r: char): Field
    requires Sized(f)
  {
    if !IsDigit(r) || f.cursor >= |f.slots| then f
    else f.(slots := f.slots[f.cursor := r], typed := f.typed[f.cursor := true], touched := true,
            cursor := NextEditable(f.editable, f.cursor + 1))
  }

  predicate AnyTyped(f: Field)
    requires Sized(f)
  {
    exists i :: 0 <= i < |f.editable| && f.editable[i] && f.typed[i]
  }

  function AfterBackspace(f: Field): Field
    requires Sized(f)
  {
    var pos := PrevEditable(f.editable, f.cursor);
    if pos < 0 then f
    else
      var g := f.(slots := f.slots[pos := f.defaults[pos]], typed := f.typed[pos := false], cursor := pos);
      g.(touched := AnyTyped(g))
  }

  function AfterFill(f: Field, value: string): Field
    requires Sized(f)
  {
    f.(slots := seq(|f.slots|, i requires 0 <= i < |f.slots| =>
         if i < |value| && f.editable[i] then value[i] else f.slots[i]),
       typed := seq(|f.typed|, i requires 0 <= i < |f.typed| => (i < |value| && f.editable[i]) || f.typed[i]),
       touched := true, cursor := |f.slots|)
  }

  predicate Sized(f: Field) {
    |f.slots| == |f.defaults| == |f.editable| == |f.typed| && f.cursor <= |f.slots|
  }

  class MaskedField {
    const slots: array<char>
    const defaults: array<char>
    const editable: array<bool>
    const typed: array<bool>
    var cursor: nat
    var touched: bool

    ghost predicate Valid()
      reads this, slots, defaults, editable, typed
    {
      && slots.Length == defaults.Length == editable.Length == typed.Length && cursor <= slots.Length
      && slots != defaults && editable != typed
    }

    ghost function F(): (f: Field)
      requires Valid()
      reads this, slots, defaults, editable, typed
      ensures Sized(f)
    {
      Field(slots[..], defaults[..], editable[..], typed[..], cursor, touched)
    }

    constructor (format: string, now: string)
      ensures Valid() && F() == Fresh(format, now)
    {
      var n := Min(|format|, |now|);
      slots := new char[n](i requires 0 <= i < n => if IsDigit(format[i]) then now[i] else format[i]);
      defaults := new char[n](i requires 0 <= i < n => now[i]);
      editable := new bool[n](i requires 0 <= i < n => IsDigit(format[i]));
      typed := new bool[n](i => false);
      cursor, touched := 0, false;
      new;
      while cursor < n && !editable[cursor]
        invariant cursor <= n && NextEditable(editable[..], cursor) == NextEditable(editable[..], 0)
        invariant slots[..] == Fresh(format, now).slots && defaults[..] == now[..n]
        invariant editable[..] == Fresh(format, now).editable && typed[..] == Fresh(format, now).typed && !touched
      {
        cursor := cursor + 1;
      }
    }

    /** Returns whether the field is now full. */
    method TypeRune(r: char) returns (full: bool)
      requires Valid()
      modifies this`cursor, this`touched, slots, typed
      ensures Valid() && F() == AfterRune(old(F()), r)
      ensures full <==> IsDigit(r) && old(cursor) < slots.Length && cursor == slots.Length
    {
      if r < '0' || r > '9' || cursor >= slots.Length {
        return false;
      }
      slots[cursor] := r;
      typed[cursor] := true;
      touched := true;
      cursor := cursor + 1;
      ghost var from, before := cursor, F();
      assert before.slots == old(slots[..])[from - 1 := r] && before.typed == old(typed[..])[from - 1 := true];
      while cursor < slots.Length && !editable[cursor]
        invariant from <= cursor <= slots.Length && F() == before.(cursor := cursor)
        invariant NextEditable(editable[..], cursor) == NextEditable(editable[..], from)
      {
        cursor := cursor + 1;
      }
      assert NextEditable(editable[..], cursor) == cursor;
      return cursor >= slots.Length;
    }

    method Backspace()
      requires Valid()
      modifies this`cursor, this`touched, slots, typed
      ensures Valid() && F() == AfterBackspace(old(F()))
    {
      var pos := cursor - 1;
      while pos >= 0 && !editable[pos]
        invariant -1 <= pos < cursor && PrevEditable(editable[..], pos + 1) == PrevEditable(editable[..], cursor)
      {
        pos := pos - 1;
      }
      if pos < 0 {
        return;
      }
      slots[pos] := defaults[pos];
      typed[pos] := false;
      cursor := pos;
      touched := false;
      ghost var g := F();
      for i := 0 to editable.Length
        invariant F() == g && !touched && forall j :: 0 <= j < i ==> !(editable[j] && typed[j])
      {
        if editable[i] && typed[i] {
          assert g.editable[i] && g.typed[i];
          touched := true;
          break;
        }
      }
    }

    method Fill(value: string)
      requires Valid()
      modifies this`cursor, this`touched, slots, typed
      ensures Valid() && F() == AfterFill(old(F()), value)
    {
      for i := 0 to slots.Length
        invariant forall j :: 0 <= j < slots.Length ==>
          slots[j] == if j < i && j < |value| && editable[j] then value[j] else old(slots[..])[j]
        invariant forall j :: 0 <= j < slots.Length ==>
          typed[j] == ((j < i && j < |value| && editable[j]) || old(typed[..])[j])
      {
        if i < |value| && editable[i] {
          slots[i] := value[i];
          typed[i] := true;
        }
      }
      touched := true;
      cursor := slots.Length;
    }

    method Resolved() returns (s: string)
      requires Valid()
      ensures s == if touched then slots[..] else ""
    {
      if !touched {
        return "";
      }
      return slots[..];
    }
  }

  // ---------------------------------------------------------------- every run of keystrokes

  datatype Key = Press(r: char) | Erase

  function Stroke(f: Field, k: Key): Field
    requires Sized(f)
  {
    match k
    case Press(r) => AfterRune(f, r)
    case Erase => AfterBackspace(f)
  }

  ghost predicate IsRun(fs: seq<Field>, keys: seq<Key>) {
    && |fs| == |keys| + 1
    && forall i :: 0 <= i < |keys| ==> Sized(fs[i]) && fs[i + 1] == Stroke(fs[i], keys[i])
  }

  predicate SlotOk(f: Field, format: string, i: int)
    requires Sized(f) && 0 <= i < |f.slots| <= |format|
  {
    if f.editable[i]
    then (f.typed[i] <==> i < f.cursor) && if f.typed[i] then IsDigit(f.slots[i]) else f.slots[i] == f.defaults[i]
    else !f.typed[i] && f.slots[i] == format[i]
  }

  /** What holds of a field at all times, for its format. */
  ghost predicate Inv(f: Field, format: string, now: string) {
    && Sized(f) && |f.slots| == Min(|format|, |now|)
    && f.defaults == Fresh(format, now).defaults && f.editable == Fresh(format, now).editable
    && (forall i :: 0 <= i < |f.slots| ==> SlotOk(f, format, i))
    && (f.cursor < |f.slots| ==> f.editable[f.cursor])
    && (f.touched <==> AnyTyped(f))
  }

  /** A fresh field shows the current time where the format has digits and the format elsewhere;
      nothing is typed, the cursor is at the first digit of the format, and it resolves to nothing. */
  lemma FreshShows(format: string, now: string)
    ensures var f := Fresh(format, now);
      && |f.slots| == (if |format| <= |now| then |format| else |now|) && Sized(f) && !f.touched
      && (forall i :: 0 <= i < |f.slots| ==>
            && f.slots[i] == (if format[i] in "0123456789" then now[i] else format[i])
            && (f.editable[i] <==> format[i] in "0123456789") && !f.typed[i])
      && (forall i :: 0 <= i < f.cursor ==> format[i] !in "0123456789")
      && (f.cursor < |f.slots| ==> format[f.cursor] in "0123456789")
  {
    forall c: char ensures IsDigit(c) <==> c in "0123456789" { DigitsAre(c); }
  }

  lemma DigitsAre(c: char)
    ensures IsDigit(c) <==> c in "0123456789"
  {
    var digits := "0123456789";
    assert forall i :: 0 <= i < 10 ==> digits[i] == '0' + i as char;
    if IsDigit(c) {
      assert digits[(c - '0') as int] == c;
    }
  }

  lemma FreshInv(format: string, now: string)
    ensures Inv(Fresh(format, now), format, now)
  {}

  lemma TypeKeeps(f: Field, r: char, format: string, now: string)
    requires Inv(f, format, now)
    ensures Inv(AfterRune(f, r), format, now)
  {
    var g := AfterRune(f, r);
    if g != f {
      assert g.editable[f.cursor] && g.typed[f.cursor];
      forall i | 0 <= i < |g.slots| ensures SlotOk(g, format, i) { assert SlotOk(f, format, i); }
    }
  }

  lemma BackspaceKeeps(f: Field, format: string, now: string)
    requires Inv(f, format, now)
    ensures Inv(AfterBackspace(f), format, now)
  {
    var g := AfterBackspace(f);
    forall i | 0 <= i < |g.slots| ensures SlotOk(g, format, i) { assert SlotOk(f, format, i); }
  }

  /** From a fresh field, after any keystrokes: literal positions hold the format's characters,
      the cursor is at an editable slot or the end, a slot is typed exactly when it is editable
      and before the cursor, typed slots hold digits and the other editable ones their
      defaults, and the field counts as touched exactly when something is typed. */
  lemma {:induction false} InvHolds(fs: seq<Field>, keys: seq<Key>, format: string, now: string, n: nat)
    requires IsRun(fs, keys) && fs[0] == Fresh(format, now) && n < |fs|
    ensures Inv(fs[n], format, now)
  {
    if n == 0 {
      FreshInv(format, now);
    } else {
      InvHolds(fs, keys, format, now, n - 1);
      match keys[n - 1]
      case Press(r) => TypeKeeps(fs[n - 1], r, format, now);
      case Erase => BackspaceKeeps(fs[n - 1], format, now);
    }
  }

  /** A backspace takes back an accepted digit completely. */
  lemma BackspaceUndoes(f: Field, r: char, format: string, now: string)
    requires Inv(f, format, now) && IsDigit(r) && f.cursor < |f.slots|
    ensures AfterBackspace(AfterRune(f, r)) == f
  {
    var g := AfterRune(f, r);
    TypeKeeps(f, r, format, now);
    assert PrevEditable(g.editable, g.cursor) == f.cursor;
    var h := AfterBackspace(g);
    assert SlotOk(f, format, f.cursor);
    assert h.slots == f.slots && h.typed == f.typed;
  }

  function TypeAll(f: Field, digits: string): Field
    requires Sized(f)
    ensures Sized(TypeAll(f, digits)) && |TypeAll(f, digits).slots| == |f.slots|
    decreases |digits|
  {
    if digits == "" then f else AfterRune(TypeAll(f, digits[..|digits| - 1]), digits[|digits| - 1])
  }

  function EraseTimes(f: Field, k: nat): Field
    requires Sized(f)
    ensures Sized(EraseTimes(f, k))
    decreases k
  {
    if k == 0 then f else EraseTimes(AfterBackspace(f), k - 1)
  }

  /** All the digits were accepted: there was a slot for each. */
  predicate Accepted(f: Field, digits: string)
    requires Sized(f)
  {
    forall i :: 0 <= i < |digits| ==> AcceptedAt(f, digits, i)
  }

  /** Character i is a digit that finds a slot. */
  predicate AcceptedAt(f: Field, digits: string, i: nat)
    requires Sized(f) && i < |digits|
  {
    IsDigit(digits[i]) && TypeAll(f, digits[..i]).cursor < |f.slots|
  }

  lemma {:induction false} TypeAllKeeps(f: Field, digits: string, format: string, now: string)
    requires Inv(f, format, now)
    ensures Inv(TypeAll(f, digits), format, now)
    decreases |digits|
  {
    if digits != "" {
      TypeAllKeeps(f, digits[..|digits| - 1], format, now);
      TypeKeeps(TypeAll(f, digits[..|digits| - 1]), digits[|digits| - 1], format, now);
    }
  }

  /** What the editable slots before position c show, in order. */
  function Shown(f: Field, c: nat): string
    requires Sized(f) && c <= |f.slots|
  {
    if c == 0 then "" else Shown(f, c - 1) + if f.editable[c - 1] then [f.slots[c - 1]] else ""
  }

  lemma {:induction false} ShownSame(f: Field, g: Field, c: nat, e: nat)
    requires Sized(f) && Sized(g) && c <= e <= |f.slots| == |g.slots| && f.editable == g.editable
    requires forall i :: 0 <= i < c ==> g.slots[i] == f.slots[i]
    requires forall i :: c <= i < e ==> !g.editable[i]
    ensures Shown(g, e) == Shown(f, c)
    decreases e
  {
    if c < e {
      ShownSame(f, g, c, e - 1);
    } else if c > 0 {
      ShownSame(f, g, c - 1, c - 1);
    }
  }

  lemma LastAccepted(f: Field, digits: string)
    requires Sized(f) && digits != "" && Accepted(f, digits)
    ensures var n := |digits| - 1;
      Accepted(f, digits[..n]) && AcceptedAt(f, digits, n)
  {
    var n := |digits| - 1;
    forall i: nat | i < n ensures AcceptedAt(f, digits[..n], i) {
      assert AcceptedAt(f, digits, i);
      assert digits[..n][..i] == digits[..i];
    }
  }

  /** The digits that are accepted show in the editable slots before the cursor, in order, after
      what was typed before them. */
  lemma {:induction false} TypedDigitsShow(f: Field, digits: string, format: string, now: string)
    requires Inv(f, format, now) && Accepted(f, digits)
    ensures Shown(TypeAll(f, digits), TypeAll(f, digits).cursor) == Shown(f, f.cursor) + digits
    decreases |digits|
  {
    if digits != "" {
      var n := |digits| - 1;
      var init := digits[..n];
      LastAccepted(f, digits);
      TypeAllKeeps(f, init, format, now);
      TypedDigitsShow(f, init, format, now);
      DigitShows(TypeAll(f, init), digits[n], format, now);
      assert (Shown(f, f.cursor) + init) + [digits[n]] == Shown(f, f.cursor) + digits;
    } else {
      assert Shown(f, f.cursor) + "" == Shown(f, f.cursor);
    }
  }

  lemma DigitShows(f: Field, r: char, format: string, now: string)
    requires Inv(f, format, now) && IsDigit(r) && f.cursor < |f.slots|
    ensures Shown(AfterRune(f, r), AfterRune(f, r).cursor) == Shown(f, f.cursor) + [r]
  {
    var g, c := AfterRune(f, r), f.cursor;
    assert Sized(g) && g.editable == f.editable && g.editable[c] && g.slots[c] == r && g.cursor > c;
    assert Shown(g, c + 1) == Shown(g, c) + [r];
    ShownSame(f, g, c, c);
    ShownSame(g, g, c + 1, g.cursor);
  }

  /** However many digits were accepted, as many backspaces restore the field completely. */
  lemma {:induction false} BackspacesUndoDigits(f: Field, digits: string, format: string, now: string)
    requires Inv(f, format, now) && Accepted(f, digits)
    ensures EraseTimes(TypeAll(f, digits), |digits|) == f
    decreases |digits|
  {
    if digits != "" {
      var n := |digits| - 1;
      var init := digits[..n];
      LastAccepted(f, digits);
      TypeAllKeeps(f, init, format, now);
      BackspaceUndoes(TypeAll(f, init), digits[n], format, now);
      BackspacesUndoDigits(f, init, format, now);
    }
  }

  /** Filling in a whole value that agrees with the literals makes the field show and resolve to
      it, with the cursor at the end. */
  lemma FillShowsValue(f: Field, value: string)
    requires Sized(f) && |value| == |f.slots|
    requires forall i :: 0 <= i < |f.slots| && !f.editable[i] ==> value[i] == f.slots[i]
    ensures var g := AfterFill(f, value);
      && g.slots == value && g.touched && g.cursor == |g.slots|
      && g.defaults == f.defaults && g.editable == f.editable
      && forall i :: 0 <= i < |g.typed| ==> (g.typed[i] <==> g.editable[i] || f.typed[i])
  {}

  /** A shorter value leaves the slots it does not reach as they were. */
  lemma FillStops(f: Field, value: string)
    requires Sized(f)
    ensures var g := AfterFill(f, value);
      forall i :: |value| <= i < |f.slots| ==> g.slots[i] == f.slots[i] && (g.typed[i] <==> f.typed[i])
  {}

  /** Filling in a value leaves the field in order exactly when the value has a digit for every
      editable slot it reaches, only slots before the cursor are beyond it, and there is an
      editable slot at all. */
  lemma FillKeepsIff(f: Field, value: string, format: string, now: string)
    requires Inv(f, format, now)
    ensures Inv(AfterFill(f, value), format, now) <==>
      (forall i :: 0 <= i < |f.slots| ==> FillsSlot(f, value, i)) && HasEditable(f)
  {
    var g := AfterFill(f, value);
    forall i | 0 <= i < |f.slots| ensures SlotOk(g, format, i) <==> FillsSlot(f, value, i) {
      assert SlotOk(f, format, i);
    }
    forall i | 0 <= i < |f.slots| && f.editable[i] && i < f.cursor ensures f.typed[i] {
      assert SlotOk(f, format, i);
    }
    FillTouches(f, value);
  }

  predicate FillsSlot(f: Field, value: string, i: int)
    requires Sized(f) && 0 <= i < |f.slots|
  {
    f.editable[i] ==> if i < |value| then IsDigit(value[i]) else i < f.cursor
  }

  predicate HasEditable(f: Field) { exists i :: 0 <= i < |f.editable| && f.editable[i] }

  lemma FillTouches(f: Field, value: string)
    requires Sized(f)
    requires forall i :: 0 <= i < |f.slots| && f.editable[i] && i < f.cursor ==> f.typed[i]
    ensures AnyTyped(AfterFill(f, value)) ==> HasEditable(f)
    ensures HasEditable(f) && (forall i :: 0 <= i < |f.slots| ==> FillsSlot(f, value, i)) ==>
      AnyTyped(AfterFill(f, value))
  {
    var g := AfterFill(f, value);
    if HasEditable(f) && forall i :: 0 <= i < |f.slots| ==> FillsSlot(f, value, i) {
      var i :| 0 <= i < |f.editable| && f.editable[i];
      assert FillsSlot(f, value, i);
      assert g.editable[i] && g.typed[i];
    }
  }
}
