/** Quoted literals of the upsert requests, and their reading as N-Quads string literals. */
module Literals {
  import opened Wrappers

  function Escaped(s: string): string {
    if s == "" then "" else
    Escaped(s[..|s| - 1]) + EscapedChar(s[|s| - 1])
  }

  function EscapedChar(c: char): string {
    if c == '"' then "\\\"" else if c == '\\' then "\\\\" else [c]
  }

  function Quoted(s: string): string {
    "\"" + Escaped(s) + "\""
  }

  method EscapeQuote(s: string) returns (output: string)
    ensures output == Quoted(s)
  {
    output := "\"";
    for i := 0 to |s|
      invariant output == "\"" + Escaped(s[..i])
    {
      assert s[..i + 1][..i] == s[..i];
      if s[i] == '"' {
        output := output + "\\\"";
      } else if s[i] == '\\' {
        output := output + "\\\\";
      } else {
        output := output + [s[i]];
      }
    }
    assert s[..|s|] == s;
    output := output + "\"";
  }

  // ECHAR of section 4 of RDF 1.1 N-Quads, after the backslash.
  function EcharValue(c: char): Option<char> {
    if c == '"' || c == '\\' || c == '\'' then Some(c)
    else if c == 't' then Some('\t')
    else if c == 'n' then Some('\n')
    else if c == 'r' then Some('\r')
    else if c == 'b' then Some(8 as char)
    else if c == 'f' then Some(12 as char)
    else None
  }

  // The value of the inside of a STRING_LITERAL_QUOTE of that section, or None if it is not
  // one.  Numeric escapes are left out: nothing written here uses them.
  function BodyValue(s: string): Option<string>
    decreases |s|
  {
    if s == "" then Some("")
    else if s[0] == '\\' then
      if |s| == 1 || EcharValue(s[1]).None? then None else
      var rest := BodyValue(s[2..]);
      if rest.None? then None else Some([EcharValue(s[1]).value] + rest.value)
    else if s[0] == '"' || s[0] == '\n' || s[0] == '\r' then None
    else
      var rest := BodyValue(s[1..]);
      if rest.None? then None else Some([s[0]] + rest.value)
  }

  function LiteralValue(s: string): Option<string> {
    if |s| < 2 || s[0] != '"' || s[|s| - 1] != '"' then None else BodyValue(s[1..|s| - 1])
  }

  predicate OneLine(s: string) {
    '\n' !in s && '\r' !in s
  }

  // The reading of `s` followed by what reads as `rest`.
  function Prefixed(s: string, rest: Option<string>): Option<string> {
    if OneLine(s) && rest.Some? then Some(s + rest.value) else None
  }

  lemma PrefixedSnoc(s: string, c: char, rest: Option<string>)
    ensures Prefixed(s + [c], rest) == Prefixed(s, Prefixed([c], rest))
  {
    assert '\n' in s + [c] <==> '\n' in s || c == '\n';
    assert '\r' in s + [c] <==> '\r' in s || c == '\r';
    if rest.Some? {
      assert s + [c] + rest.value == s + ([c] + rest.value);
    }
  }

  lemma BodyOfChar(c: char, tail: string)
    ensures BodyValue(EscapedChar(c) + tail) == Prefixed([c], BodyValue(tail))
  {
    var t := EscapedChar(c) + tail;
    if c == '"' || c == '\\' {
      assert t[0] == '\\' && t[1] == c && t[2..] == tail;
    } else {
      assert t[0] == c && t[1..] == tail;
    }
  }

  lemma {:induction false} BodyOfEscaped(s: string, tail: string)
    ensures BodyValue(Escaped(s) + tail) == Prefixed(s, BodyValue(tail))
    decreases |s|
  {
    if s == "" {
      assert "" + tail == tail;
      assert BodyValue(tail).Some? ==> "" + BodyValue(tail).value == BodyValue(tail).value;
    } else {
      var front, c := s[..|s| - 1], s[|s| - 1];
      assert s == front + [c];
      assert Escaped(s) + tail == Escaped(front) + (EscapedChar(c) + tail);
      BodyOfEscaped(front, EscapedChar(c) + tail);
      BodyOfChar(c, tail);
      PrefixedSnoc(front, c, BodyValue(tail));
    }
  }

  // A quoted text reads back as itself, and is a literal at all exactly when it has no line
  // break.
  lemma QuotedReadsBack(s: string)
    ensures LiteralValue(Quoted(s)) == if OneLine(s) then Some(s) else None
  {
    var q := Quoted(s);
    assert q[1..|q| - 1] == Escaped(s) == Escaped(s) + "";
    BodyOfEscaped(s, "");
    assert s + "" == s;
  }
}
