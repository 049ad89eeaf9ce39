/** `escape_text` of `process_clip`: three `str.replace` passes making a
    string safe inside a quoted `drawtext` option: backslash first, then
    colon, then single quote. */
module Escape {
  import opened Text
  import opened Wrappers

  /** `escape_text` as written: `\` -> `\\`, then `:` -> `\:`, then
      `'` -> `'\''` (close the quote, an escaped quote, reopen). */
  function EscapeText(t: string): string {
    Replace(Replace(Replace(t, "\\", "\\\\"), ":", "\\:"), "'", "'\\''")
  }

  /** What each character turns into. */
  function EscapeChar(c: char): string {
    if c == '\\' then "\\\\"
    else if c == ':' then "\\:"
    else if c == '\'' then "'\\''"
    else [c]
  }

  /** The independent, one-pass reading of the escaping rule. */
  function EscapeEach(t: string): string {
    if |t| == 0 then [] else EscapeChar(t[0]) + EscapeEach(t[1..])
  }

  predicate IsSpecial(c: char) {
    c == '\\' || c == ':' || c == '\''
  }

  function Staged(t: string): string {
    SubstChar(SubstChar(SubstChar(t, '\\', "\\\\"), ':', "\\:"), '\'', "'\\''")
  }

  lemma StagedAppend(a: string, b: string)
    ensures Staged(a + b) == Staged(a) + Staged(b)
  {
    var a1, b1 := SubstChar(a, '\\', "\\\\"), SubstChar(b, '\\', "\\\\");
    SubstCharAppend(a, b, '\\', "\\\\");
    var a2, b2 := SubstChar(a1, ':', "\\:"), SubstChar(b1, ':', "\\:");
    SubstCharAppend(a1, b1, ':', "\\:");
    SubstCharAppend(a2, b2, '\'', "'\\''");
  }

  lemma StagedChar(c: char)
    ensures Staged([c]) == EscapeChar(c)
  {
    var one := SubstChar([c], '\\', "\\\\");
    assert SubstChar([c], '\\', "\\\\") == (if c == '\\' then "\\\\" else [c]) + SubstChar([], '\\', "\\\\");
    if c == '\\' {
      assert one == ['\\', '\\'];
      var two := SubstChar(one, ':', "\\:");
      assert SubstChar(one[1..], ':', "\\:") == ['\\'];
      assert two == ['\\', '\\'];
      assert SubstChar(two[1..], '\'', "'\\''") == ['\\'];
    } else if c == ':' {
      assert one == [':'];
      assert SubstChar(one, ':', "\\:") == ['\\', ':'];
      var two := ['\\', ':'];
      assert SubstChar(two[1..], '\'', "'\\''") == [':'];
    } else if c == '\'' {
      assert one == ['\''];
      assert SubstChar(one, ':', "\\:") == ['\''];
      assert SubstChar(['\''], '\'', "'\\''") == "'\\''" + SubstChar([], '\'', "'\\''");
    } else {
      assert one == [c];
      assert SubstChar(one, ':', "\\:") == [c] + SubstChar([], ':', "\\:");
      assert SubstChar([c], '\'', "'\\''") == [c] + SubstChar([], '\'', "'\\''");
    }
  }

  /** The three passes in this order amount to one pass of `EscapeChar`:
      the backslashes introduced by the colon and quote passes come after
      the backslash pass and are never doubled again. */
  lemma {:induction false} EscapeTextIsEscapeEach(t: string)
    ensures EscapeText(t) == EscapeEach(t)
    decreases |t|
  {
    ReplaceCharIsSubst(t, '\\', "\\\\");
    ReplaceCharIsSubst(SubstChar(t, '\\', "\\\\"), ':', "\\:");
    ReplaceCharIsSubst(SubstChar(SubstChar(t, '\\', "\\\\"), ':', "\\:"), '\'', "'\\''");
    assert EscapeText(t) == Staged(t);
    StagedIsEscapeEach(t);
  }

  lemma {:induction false} StagedIsEscapeEach(t: string)
    ensures Staged(t) == EscapeEach(t)
    decreases |t|
  {
    if |t| > 0 {
      assert t == [t[0]] + t[1..];
      StagedAppend([t[0]], t[1..]);
      StagedChar(t[0]);
      StagedIsEscapeEach(t[1..]);
    }
  }

  /** Text without backslash, colon or quote passes through unchanged. */
  lemma {:induction false} EscapePlain(t: string)
    requires forall i :: 0 <= i < |t| ==> !IsSpecial(t[i])
    ensures EscapeText(t) == t
  {
    EscapeTextIsEscapeEach(t);
    EscapeEachPlain(t);
  }

  lemma {:induction false} EscapeEachPlain(t: string)
    requires forall i :: 0 <= i < |t| ==> !IsSpecial(t[i])
    ensures EscapeEach(t) == t
    decreases |t|
  {
    if |t| > 0 {
      EscapeEachPlain(t[1..]);
      assert t == [t[0]] + t[1..];
    }
  }

  function Prepend(c: char, r: Option<string>): Option<string> {
    if r.Some? then Some([c] + r.value) else None
  }

  /** The model's decoder for an escaped field, reading exactly the three
      escapes the escaper writes: `\\` is a backslash, `\:` a colon,
      `'\''` a quote; a bare colon or quote, or any other backslash
      sequence, is not something the escaper writes. It is one level of
      unescaping, not ffmpeg's own reading of a filter graph. */
  function Unescape(e: string): Option<string>
    decreases |e|
  {
    if |e| == 0 then Some([])
    else if e[0] == '\\' then
      if |e| >= 2 && (e[1] == '\\' || e[1] == ':') then Prepend(e[1], Unescape(e[2..])) else None
    else if e[0] == '\'' then
      if |e| >= 4 && e[..4] == "'\\''" then Prepend('\'', Unescape(e[4..])) else None
    else if e[0] == ':' then None
    else Prepend(e[0], Unescape(e[1..]))
  }

  /** The model's decoder reads every escaped field back as the original
      text: the escaping loses nothing and is unambiguous. */
  lemma UnescapeEscapeText(t: string)
    ensures Unescape(EscapeText(t)) == Some(t)
  {
    EscapeTextIsEscapeEach(t);
    UnescapeEscapeEach(t);
  }

  lemma {:induction false} UnescapeEscapeEach(t: string)
    ensures Unescape(EscapeEach(t)) == Some(t)
    decreases |t|
  {
    if |t| > 0 {
      var c := t[0];
      var e := EscapeEach(t);
      UnescapeEscapeEach(t[1..]);
      assert e == EscapeChar(c) + EscapeEach(t[1..]);
      if c == '\\' || c == ':' {
        assert e[2..] == EscapeEach(t[1..]);
      } else if c == '\'' {
        assert e[..4] == "'\\''";
        assert e[4..] == EscapeEach(t[1..]);
      } else {
        assert e[1..] == EscapeEach(t[1..]);
      }
      assert t == [c] + t[1..];
    }
  }

  /** Escaping is injective: distinct texts give distinct fields. */
  lemma EscapeInjective(s: string, t: string)
    requires EscapeText(s) == EscapeText(t)
    ensures s == t
  {
    UnescapeEscapeText(s);
    UnescapeEscapeText(t);
  }

  /** The order is load-bearing: escaping colons before backslashes doubles
      the backslash just written, and the field no longer reads back. */
  lemma ColonFirstCorrupts()
    ensures var colonFirst := Replace(Replace(":", ":", "\\:"), "\\", "\\\\");
      Unescape(colonFirst) != Some(":")
  {
    ReplaceCharIsSubst(":", ':', "\\:");
    assert SubstChar(":", ':', "\\:") == "\\:";
    ReplaceCharIsSubst("\\:", '\\', "\\\\");
    assert SubstChar("\\:"[1..], '\\', "\\\\") == ":";
    assert SubstChar("\\:", '\\', "\\\\") == "\\\\:";
    assert Unescape("\\\\:"[2..]) == None;
  }

  /** Escaping quotes before backslashes is wrong too: the backslash of
      the inserted `'\''` is doubled, and the field no longer reads back. */
  lemma QuoteFirstCorrupts()
    ensures var quoteFirst := Replace(Replace("'", "'", "'\\''"), "\\", "\\\\");
      Unescape(quoteFirst) != Some("'")
  {
    ReplaceCharIsSubst("'", '\'', "'\\''");
    assert SubstChar("'", '\'', "'\\''") == "'\\''";
    ReplaceCharIsSubst("'\\''", '\\', "\\\\");
    assert SubstChar("'\\''"[2..], '\\', "\\\\") == "''";
    assert SubstChar("'\\''"[1..], '\\', "\\\\") == "\\\\''";
    assert SubstChar("'\\''", '\\', "\\\\") == "'\\\\''";
    assert "'\\\\''"[..4] != "'\\''";
  }
}
