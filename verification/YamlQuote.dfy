/** The double-quoted scalars that fmt's %q writes into agent.yml and a YAML reader takes back out. */
module YamlQuote {
  import opened Results
  import opened Text

  /** The letter after the backslash for the characters that have one. */
  function ShortEscape(c: char): Option<char> {
    if c == '\"' || c == '\\' then Some(c)
    else if c == '\n' then Some('n')
    else if c == '\r' then Some('r')
    else if c == '\t' then Some('t')
    else if c as int == 7 then Some('a')
    else if c as int == 8 then Some('b')
    else if c as int == 11 then Some('v')
    else if c as int == 12 then Some('f')
    else None
  }

  function ShortUnescape(c: char): Option<char> {
    if c == '\"' || c == '\\' then Some(c)
    else if c == 'n' then Some('\n')
    else if c == 'r' then Some('\r')
    else if c == 't' then Some('\t')
    else if c == 'a' then Some(7 as char)
    else if c == 'b' then Some(8 as char)
    else if c == 'v' then Some(11 as char)
    else if c == 'f' then Some(12 as char)
    else None
  }

  function Escape(c: char): (r: string)
    ensures '\n' !in r
  {
    var short := ShortEscape(c);
    if short.Some? then ['\\', short.value]
    else if c < ' ' || c as int == 127 then ['\\', 'x', HexDigit(c as int / 16), HexDigit(c as int % 16)]
    else [c]
  }

  function EscapeAll(s: string): (r: string)
    ensures '\n' !in r
  {
    if s == [] then [] else Escape(s[0]) + EscapeAll(s[1..])
  }

  function Quote(s: string): (r: string)
    ensures '\n' !in r
  {
    "\"" + EscapeAll(s) + "\""
  }

  /** One character of a quoted scalar and the text after it; None at the closing quote or a bad escape. */
  function TakeChar(s: string): (r: Option<(char, string)>)
    ensures r.Some? ==> |r.value.1| < |s|
  {
    if s == [] || s[0] == '\"' then None
    else if s[0] != '\\' then Some((s[0], s[1..]))
    else if |s| < 2 then None
    else if ShortUnescape(s[1]).Some? then Some((ShortUnescape(s[1]).value, s[2..]))
    else if s[1] == 'x' && |s| >= 4 && HexValue(s[2]).Some? && HexValue(s[3]).Some? then
      Some(((HexValue(s[2]).value * 16 + HexValue(s[3]).value) as char, s[4..]))
    else None
  }

  /** The contents of a quoted scalar up to its closing quote. */
  function UnquoteBody(s: string): Option<string>
    decreases |s|
  {
    if s == [] then None
    else if s[0] == '\"' then Some([])
    else
      var c := TakeChar(s);
      if c.None? then None
      else
        var rest := UnquoteBody(c.value.1);
        if rest.None? then None else Some([c.value.0] + rest.value)
  }

  function Unquote(s: string): Option<string> {
    if s != [] && s[0] == '\"' then UnquoteBody(s[1..]) else None
  }

  lemma TakeEscaped(c: char, rest: string)
    ensures TakeChar(Escape(c) + rest) == Some((c, rest))
    ensures (Escape(c) + rest)[0] != '\"'
  {
    var s := Escape(c) + rest;
    if ShortEscape(c).Some? {
      assert s[2..] == rest;
    } else if c < ' ' || c as int == 127 {
      assert s[4..] == rest;
      assert c as int / 16 * 16 + c as int % 16 == c as int;
    } else {
      assert s[1..] == rest;
    }
  }

  lemma {:induction false} UnquoteOfEscaped(s: string, rest: string)
    ensures UnquoteBody(EscapeAll(s) + "\"" + rest) == Some(s)
  {
    hide Escape;
    if s != [] {
      hide TakeChar;
      var tail := EscapeAll(s[1..]) + "\"" + rest;
      var text := Escape(s[0]) + tail;
      assert EscapeAll(s) + "\"" + rest == text;
      TakeEscaped(s[0], tail);
      UnquoteOfEscaped(s[1..], rest);
      assert UnquoteBody(text) == Some([s[0]] + s[1..]);
      assert s == [s[0]] + s[1..];
    }
  }

  /** Every string survives quoting, whatever follows its closing quote on the line. */
  lemma UnquoteOfQuoted(s: string, rest: string)
    ensures Unquote(Quote(s) + rest) == Some(s)
  {
    UnquoteOfEscaped(s, rest);
    assert (Quote(s) + rest)[1..] == EscapeAll(s) + "\"" + rest;
  }
}
