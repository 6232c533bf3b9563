/** The line-based scalar editors of config.go, and a reader for what they write. */
module YamlScalars {
  import opened Results
  import opened Text
  import opened YamlQuote

  predicate IsWordChar(c: char) {
    'a' <= c <= 'z' || 'A' <= c <= 'Z' || '0' <= c <= '9' || c == '_'
  }

  predicate Identifier(key: string) {
    key != [] && forall i :: 0 <= i < |key| ==> IsWordChar(key[i])
  }

  /** The text after leading spaces and tabs. */
  function SkipBlanks(s: string): (r: string)
    ensures |r| <= |s|
  {
    if s != [] && (s[0] == ' ' || s[0] == '\t') then SkipBlanks(s[1..]) else s
  }

  lemma {:induction false} SkippedAreBlanks(s: string)
    ensures var n := |s| - |SkipBlanks(s)|;
      s[n..] == SkipBlanks(s) && forall j :: 0 <= j < n ==> s[j] == ' ' || s[j] == '\t'
  {
    if s != [] && (s[0] == ' ' || s[0] == '\t') {
      SkippedAreBlanks(s[1..]);
    }
  }

  /** The line is `key:` at column zero, with blanks allowed before the colon. */
  predicate AtColumnZero(line: string, key: string) {
    key <= line && var rest := SkipBlanks(line[|key|..]); rest != [] && rest[0] == ':'
  }

  /** The line the editor's pattern matches: `key:` after any indentation. */
  predicate SetsKey(line: string, key: string) {
    AtColumnZero(SkipBlanks(line), key)
  }

  predicate HasKey(lines: seq<string>, key: string) {
    exists i :: 0 <= i < |lines| && SetsKey(lines[i], key)
  }

  function ReplaceLines(lines: seq<string>, key: string, line: string): (r: seq<string>)
    ensures |r| == |lines|
    ensures forall i :: 0 <= i < |lines| ==> r[i] == if SetsKey(lines[i], key) then line else lines[i]
  {
    seq(|lines|, i requires 0 <= i < |lines| => if SetsKey(lines[i], key) then line else lines[i])
  }

  predicate EndsInNewline(doc: string) {
    doc != [] && doc[|doc| - 1] == '\n'
  }

  function WrittenLine(key: string, value: string, quote: bool): string {
    key + ": " + if quote then Quote(value) else value
  }

  /** setYamlScalarValue: rewrite every line that sets the key, or append one. */
  function SetScalarValue(doc: string, key: string, value: string, quote: bool): string {
    var line := WrittenLine(key, value, quote);
    var lines := Split(doc, '\n');
    if HasKey(lines, key) then Join(ReplaceLines(lines, key, line), "\n")
    else (if EndsInNewline(doc) then doc else doc + "\n") + line + "\n"
  }

  /** setYamlScalar. */
  function SetScalar(doc: string, key: string, value: string): string {
    SetScalarValue(doc, key, value, true)
  }

  // ----- The editor on lines -----

  /** The lines of the document without the empty piece after its last newline. */
  function Body(lines: seq<string>): seq<string>
    requires lines != []
  {
    if |lines| > 1 && lines[|lines| - 1] == [] then lines[..|lines| - 1] else lines
  }

  function SetLine(lines: seq<string>, key: string, line: string): (r: seq<string>)
    requires lines != []
    ensures r != []
  {
    if HasKey(lines, key) then ReplaceLines(lines, key, line) else Body(lines) + [line, []]
  }

  lemma {:induction false} LastPieceAfterNewline(doc: string)
    ensures var parts := Split(doc, '\n'); EndsInNewline(doc) <==> |parts| > 1 && parts[|parts| - 1] == []
  {
    if doc != [] {
      LastPieceAfterNewline(doc[1..]);
      assert |doc| > 1 ==> doc[1..][|doc| - 2] == doc[|doc| - 1];
    }
  }

  lemma JoinOfBody(doc: string)
    ensures Join(Body(Split(doc, '\n')), "\n") + "\n" == if EndsInNewline(doc) then doc else doc + "\n"
  {
    hide Split, Join;
    var parts := Split(doc, '\n');
    JoinOfSplit(doc, '\n');
    LastPieceAfterNewline(doc);
    if EndsInNewline(doc) {
      var n := |parts| - 1;
      assert parts == parts[..n] + [[]];
      JoinAppend(parts[..n], [[]], "\n");
      JoinOfEmpty(Join(parts[..n], "\n"));
    }
  }

  lemma JoinOfEmpty(text: string)
    ensures text + "\n" + Join([[]], "\n") == text + "\n"
  {
    assert Join([[]], "\n") == [];
  }

  lemma SetScalarLines(doc: string, key: string, value: string, quote: bool)
    requires '\n' !in WrittenLine(key, value, quote)
    ensures Split(SetScalarValue(doc, key, value, quote), '\n')
         == SetLine(Split(doc, '\n'), key, WrittenLine(key, value, quote))
  {
    var line, lines := WrittenLine(key, value, quote), Split(doc, '\n');
    hide WrittenLine, SetsKey, Split;
    if HasKey(lines, key) {
      SplitOfJoin(ReplaceLines(lines, key, line), '\n');
    } else {
      JoinOfBody(doc);
      AppendedLines(Body(lines), line);
    }
  }

  lemma AppendedLines(body: seq<string>, line: string)
    requires body != [] && '\n' !in line && forall i :: 0 <= i < |body| ==> '\n' !in body[i]
    ensures Split(Join(body, "\n") + "\n" + line + "\n", '\n') == body + [line, []]
  {
    hide Split;
    JoinAppend(body, [line, []], "\n");
    assert Join([line, []], "\n") == line + "\n" + [];
    assert Join(body + [line, []], "\n") == Join(body, "\n") + "\n" + line + "\n";
    SplitOfJoin(body + [line, []], '\n');
  }

  // ----- Which lines a written line can be taken for -----

  lemma IdentifierStart(key: string, rest: string)
    requires Identifier(key)
    ensures SkipBlanks(key + rest) == key + rest
  {
    assert IsWordChar(key[0]);
  }

  /** A written line sets its own key and no other. */
  lemma WrittenLineSetsItsKey(key: string, other: string, text: string)
    requires Identifier(key) && Identifier(other)
    ensures SetsKey(key + ": " + text, other) <==> key == other
    ensures AtColumnZero(key + ": " + text, other) <==> key == other
  {
    var line := key + ": " + text;
    var rest := ": " + text;
    assert line == key + rest;
    IdentifierStart(key, rest);
    assert line[|key|] == ':';
    if |other| > |key| {
      assert IsWordChar(other[|key|]);
    }
    if other == key {
      assert line[|key|..] == rest;
    } else if other <= line && |other| <= |key| {
      assert IsWordChar(key[|other|]) by { assert other == key[..|other|]; }
      assert line[|other|..][0] == key[|other|];
    }
  }

  lemma EmptyLineSetsNothing(key: string)
    requires Identifier(key)
    ensures !SetsKey([], key)
  {
  }

  // ----- Editing as a store -----

  lemma {:induction false} SetLineOverrides(lines: seq<string>, key: string, first: string, second: string)
    requires lines != [] && SetsKey(first, key) && !SetsKey([], key)
    ensures SetLine(SetLine(lines, key, first), key, second) == SetLine(lines, key, second)
  {
    hide SetsKey;
    if HasKey(lines, key) {
      var i :| 0 <= i < |lines| && SetsKey(lines[i], key);
      assert SetsKey(ReplaceLines(lines, key, first)[i], key);
    } else {
      var all := Body(lines) + [first, []];
      assert SetsKey(all[|Body(lines)|], key);
      assert forall i :: 0 <= i < |Body(lines)| ==> !SetsKey(all[i], key);
    }
  }

  /** Setting a key again leaves the bytes the second setting alone would have left. */
  lemma SecondSetOverrides(doc: string, key: string, v1: string, q1: bool, v2: string, q2: bool)
    requires Identifier(key) && '\n' !in WrittenLine(key, v1, q1) && '\n' !in WrittenLine(key, v2, q2)
    ensures SetScalarValue(SetScalarValue(doc, key, v1, q1), key, v2, q2) == SetScalarValue(doc, key, v2, q2)
  {
    var w1, w2 := WrittenLine(key, v1, q1), WrittenLine(key, v2, q2);
    WrittenLineSetsItsKey(key, key, if q1 then Quote(v1) else v1);
    var once := SetScalarValue(doc, key, v1, q1);
    SetScalarLines(doc, key, v1, q1);
    SetScalarLines(once, key, v2, q2);
    SetScalarLines(doc, key, v2, q2);
    EmptyLineSetsNothing(key);
    JoinOfSplit(SetScalarValue(once, key, v2, q2), '\n');
    JoinOfSplit(SetScalarValue(doc, key, v2, q2), '\n');
    hide *;
    SetLineOverrides(Split(doc, '\n'), key, w1, w2);
  }

  lemma SetLinesCommute(lines: seq<string>, k1: string, w1: string, k2: string, w2: string)
    requires lines != [] && w1 != w2 && !SetsKey([], k1) && !SetsKey([], k2)
    requires SetsKey(w1, k1) && !SetsKey(w1, k2) && SetsKey(w2, k2) && !SetsKey(w2, k1)
    requires forall l :: !(SetsKey(l, k1) && SetsKey(l, k2))
    ensures SetLine(SetLine(lines, k1, w1), k2, w2) == SetLine(SetLine(lines, k2, w2), k1, w1)
       <==> HasKey(lines, k1) || HasKey(lines, k2)
  {
    hide SetsKey;
    if HasKey(lines, k1) && HasKey(lines, k2) {
      ReplaceKeepsKeys(lines, k1, w1, k2);
      ReplaceKeepsKeys(lines, k2, w2, k1);
    } else if HasKey(lines, k1) {
      ReplaceCommutesWithAppend(lines, k1, w1, k2, w2);
    } else if HasKey(lines, k2) {
      ReplaceCommutesWithAppend(lines, k2, w2, k1, w1);
    } else {
      AppendTwice(lines, k1, w1, k2, w2);
      AppendTwice(lines, k2, w2, k1, w1);
      assert (Body(lines) + [w1, w2, []])[|Body(lines)|] == w1;
      assert (Body(lines) + [w2, w1, []])[|Body(lines)|] == w2;
    }
  }

  lemma ReplaceKeepsKeys(lines: seq<string>, k1: string, w1: string, k2: string)
    requires forall l :: !(SetsKey(l, k1) && SetsKey(l, k2))
    requires !SetsKey(w1, k2)
    ensures HasKey(ReplaceLines(lines, k1, w1), k2) <==> HasKey(lines, k2)
  {
    hide SetsKey;
    forall i | 0 <= i < |lines|
      ensures SetsKey(ReplaceLines(lines, k1, w1)[i], k2) <==> SetsKey(lines[i], k2)
    {
    }
  }

  lemma BodyOfReplaced(lines: seq<string>, key: string, w: string)
    requires lines != [] && w != [] && !SetsKey([], key)
    ensures Body(ReplaceLines(lines, key, w)) == ReplaceLines(Body(lines), key, w)
  {
    hide SetsKey;
  }

  lemma ReplaceAppended(body: seq<string>, key: string, w: string, line: string)
    requires !SetsKey(line, key) && !SetsKey([], key)
    ensures ReplaceLines(body + [line, []], key, w) == ReplaceLines(body, key, w) + [line, []]
  {
    hide SetsKey;
  }

  lemma KeyInBody(lines: seq<string>, key: string, w: string)
    requires lines != [] && HasKey(lines, key) && !SetsKey([], key)
    ensures HasKey(Body(lines) + [w, []], key)
  {
    hide SetsKey;
    var i :| 0 <= i < |lines| && SetsKey(lines[i], key);
    assert i < |Body(lines)| && SetsKey((Body(lines) + [w, []])[i], key);
  }

  lemma EmptyIsNoKeyLine(w: string, key: string)
    requires SetsKey(w, key) && !SetsKey([], key)
    ensures w != []
  {
    hide SetsKey;
  }

  lemma ReplaceCommutesWithAppend(lines: seq<string>, k1: string, w1: string, k2: string, w2: string)
    requires lines != [] && HasKey(lines, k1) && !HasKey(lines, k2) && !SetsKey([], k1)
    requires SetsKey(w1, k1) && !SetsKey(w1, k2) && !SetsKey(w2, k1)
    requires forall l :: !(SetsKey(l, k1) && SetsKey(l, k2))
    ensures SetLine(SetLine(lines, k1, w1), k2, w2) == SetLine(SetLine(lines, k2, w2), k1, w1)
  {
    hide SetsKey, HasKey, ReplaceLines, Body;
    ReplaceKeepsKeys(lines, k1, w1, k2);
    EmptyIsNoKeyLine(w1, k1);
    KeyInBody(lines, k1, w2);
    BodyOfReplaced(lines, k1, w1);
    ReplaceAppended(Body(lines), k1, w1, w2);
  }

  lemma AppendTwice(lines: seq<string>, k1: string, w1: string, k2: string, w2: string)
    requires lines != [] && !HasKey(lines, k1) && !HasKey(lines, k2) && !SetsKey(w1, k2) && !SetsKey([], k2)
    ensures SetLine(SetLine(lines, k1, w1), k2, w2) == Body(lines) + [w1, w2, []]
  {
    hide SetsKey;
    var once := Body(lines) + [w1, []];
    assert !HasKey(once, k2);
    assert Body(once) == Body(lines) + [w1];
  }

  /** A line sets at most one key. */
  lemma OneKeyPerLine(line: string, k1: string, k2: string)
    requires Identifier(k1) && Identifier(k2) && SetsKey(line, k1) && SetsKey(line, k2)
    ensures k1 == k2
  {
    var l := SkipBlanks(line);
    if |k1| < |k2| {
      ShorterKeyIsSame(l, k1, k2);
    } else if |k2| < |k1| {
      ShorterKeyIsSame(l, k2, k1);
    }
  }

  lemma ShorterKeyIsSame(line: string, k1: string, k2: string)
    requires Identifier(k2) && k1 <= line && k2 <= line && |k1| < |k2|
    ensures !AtColumnZero(line, k1)
  {
    assert line[|k1|..][0] == k2[|k1|];
  }

  /** Setting two different keys in either order leaves the same bytes exactly when one of them was already there. */
  lemma SetsCommute(doc: string, k1: string, v1: string, q1: bool, k2: string, v2: string, q2: bool)
    requires Identifier(k1) && Identifier(k2) && k1 != k2
    requires '\n' !in WrittenLine(k1, v1, q1) && '\n' !in WrittenLine(k2, v2, q2)
    ensures SetScalarValue(SetScalarValue(doc, k1, v1, q1), k2, v2, q2)
         == SetScalarValue(SetScalarValue(doc, k2, v2, q2), k1, v1, q1)
       <==> HasKey(Split(doc, '\n'), k1) || HasKey(Split(doc, '\n'), k2)
  {
    var w1, w2 := WrittenLine(k1, v1, q1), WrittenLine(k2, v2, q2);
    WrittenLineSetsItsKey(k1, k2, if q1 then Quote(v1) else v1);
    WrittenLineSetsItsKey(k2, k1, if q2 then Quote(v2) else v2);
    WrittenLineSetsItsKey(k1, k1, if q1 then Quote(v1) else v1);
    WrittenLineSetsItsKey(k2, k2, if q2 then Quote(v2) else v2);
    EmptyLineSetsNothing(k1);
    EmptyLineSetsNothing(k2);
    forall l ensures !(SetsKey(l, k1) && SetsKey(l, k2)) {
      if SetsKey(l, k1) && SetsKey(l, k2) {
        OneKeyPerLine(l, k1, k2);
      }
    }
    var d1, d2 := SetScalarValue(doc, k1, v1, q1), SetScalarValue(doc, k2, v2, q2);
    SetScalarLines(doc, k1, v1, q1);
    SetScalarLines(doc, k2, v2, q2);
    SetScalarLines(d1, k2, v2, q2);
    SetScalarLines(d2, k1, v1, q1);
    JoinOfSplit(SetScalarValue(d1, k2, v2, q2), '\n');
    JoinOfSplit(SetScalarValue(d2, k1, v1, q1), '\n');
    hide *;
    SetLinesCommute(Split(doc, '\n'), k1, w1, k2, w2);
  }

  // ----- Reading back -----

  /** The value on a line, after its colon: a quoted scalar, or plain text up to a comment. */
  function ReadValue(text: string): string {
    var t := SkipBlanks(text);
    if t != [] && t[0] == '\"' then
      var u := Unquote(t);
      if u.Some? then u.value else []
    else TrimSpace(CutComment(t))
  }

  function CutComment(s: string): string {
    if s == [] || s[0] == '#' then [] else [s[0]] + CutComment(s[1..])
  }

  function ValueOn(line: string, key: string): string
    requires AtColumnZero(line, key)
  {
    ReadValue(SkipBlanks(line[|key|..])[1..])
  }

  /** The value of a top-level key: that of the first line that sets it, or "" when none does. */
  function ReadLines(lines: seq<string>, key: string): string {
    if lines == [] then []
    else if AtColumnZero(lines[0], key) then ValueOn(lines[0], key)
    else ReadLines(lines[1..], key)
  }

  function ReadScalar(doc: string, key: string): string {
    ReadLines(Split(doc, '\n'), key)
  }

  /** Every line that sets the key does so at column zero. */
  predicate OnlyTopLevel(lines: seq<string>, key: string) {
    forall i :: 0 <= i < |lines| && SetsKey(lines[i], key) ==> AtColumnZero(lines[i], key)
  }

  predicate TopLevel(doc: string, key: string) {
    OnlyTopLevel(Split(doc, '\n'), key)
  }

  lemma ColumnZeroSetsKey(line: string, key: string)
    requires Identifier(key) && AtColumnZero(line, key)
    ensures SetsKey(line, key)
  {
    assert line == key + line[|key|..];
    IdentifierStart(key, line[|key|..]);
  }

  /** A plain value that a YAML reader returns as it stands. */
  predicate PlainValue(v: string) {
    v == [] || (v[0] != '\"' && !IsSpace(v[0]) && !IsSpace(v[|v| - 1]) && '#' !in v)
  }

  lemma {:induction false} NoCommentToCut(s: string)
    requires '#' !in s
    ensures CutComment(s) == s
  {
    if s != [] {
      NoCommentToCut(s[1..]);
    }
  }

  lemma ReadQuoted(value: string)
    ensures ReadValue(" " + Quote(value)) == value
  {
    var text := " " + Quote(value);
    assert text[1..] == Quote(value);
    UnquoteOfQuoted(value, []);
    assert Quote(value) + [] == Quote(value);
    hide Unquote, EscapeAll;
    assert SkipBlanks(text) == Quote(value);
  }

  lemma ReadPlain(value: string)
    requires PlainValue(value)
    ensures ReadValue(" " + value) == value
  {
    var text := " " + value;
    assert text[1..] == value;
    NoCommentToCut(value);
    TrimSpaceIdentity(value);
    hide TrimSpace, CutComment;
    assert SkipBlanks(text) == value;
  }

  lemma ValueOfText(key: string, text: string)
    requires Identifier(key) && AtColumnZero(key + ": " + text, key)
    ensures ValueOn(key + ": " + text, key) == ReadValue(" " + text)
  {
    hide ReadValue, Identifier;
    var line := key + ": " + text;
    assert line[|key|..] == ": " + text;
    assert (": " + text)[1..] == " " + text;
  }

  lemma ValueOfWrittenLine(key: string, value: string, quote: bool)
    requires Identifier(key) && (quote || PlainValue(value))
    ensures AtColumnZero(WrittenLine(key, value, quote), key)
    ensures ValueOn(WrittenLine(key, value, quote), key) == value
  {
    hide ReadValue, Quote, Identifier, PlainValue, SetsKey, AtColumnZero, ValueOn;
    var text := if quote then Quote(value) else value;
    WrittenLineSetsItsKey(key, key, text);
    if quote {
      ReadQuoted(value);
    } else {
      ReadPlain(value);
    }
    ValueOfText(key, text);
  }

  lemma {:induction false} ReadFirstOf(lines: seq<string>, key: string, line: string)
    requires AtColumnZero(line, key)
    requires exists i :: 0 <= i < |lines| && AtColumnZero(lines[i], key)
    requires forall i :: 0 <= i < |lines| && AtColumnZero(lines[i], key) ==> lines[i] == line
    ensures ReadLines(lines, key) == ValueOn(line, key)
  {
    hide AtColumnZero, ValueOn;
    if !AtColumnZero(lines[0], key) {
      ReadFirstOf(lines[1..], key, line);
    }
  }

  /** The document after an edit reads as it should, and stays fit for the next one. */
  lemma SetThenRead(doc: string, key: string, value: string, quote: bool)
    requires Identifier(key) && TopLevel(doc, key)
    requires '\n' !in WrittenLine(key, value, quote) && (quote || PlainValue(value))
    ensures ReadScalar(SetScalarValue(doc, key, value, quote), key) == value
    ensures TopLevel(SetScalarValue(doc, key, value, quote), key)
  {
    var line, lines := WrittenLine(key, value, quote), Split(doc, '\n');
    SetScalarLines(doc, key, value, quote);
    WrittenLineSetsItsKey(key, key, if quote then Quote(value) else value);
    ValueOfWrittenLine(key, value, quote);
    EmptyLineSetsNothing(key);
    hide WrittenLine, SetScalarValue, ValueOn, Split;
    SetLineThenRead(lines, key, line);
  }

  lemma SetLineThenRead(lines: seq<string>, key: string, line: string)
    requires Identifier(key) && lines != [] && OnlyTopLevel(lines, key)
    requires AtColumnZero(line, key) && SetsKey(line, key) && !SetsKey([], key)
    ensures ReadLines(SetLine(lines, key, line), key) == ValueOn(line, key)
    ensures OnlyTopLevel(SetLine(lines, key, line), key)
  {
    var edited := SetLine(lines, key, line);
    forall i | 0 <= i < |edited| && AtColumnZero(edited[i], key) ensures SetsKey(edited[i], key) {
      ColumnZeroSetsKey(edited[i], key);
    }
    hide SetsKey, AtColumnZero, ValueOn, ReadLines, Identifier;
    SettingLines(lines, key, line);
    ReadFirstOf(edited, key, line);
  }

  /** After an edit the only lines that set the key are the written ones, and there is one. */
  lemma SettingLines(lines: seq<string>, key: string, line: string)
    requires lines != [] && SetsKey(line, key) && !SetsKey([], key)
    ensures var edited := SetLine(lines, key, line);
      && (forall i :: 0 <= i < |edited| && SetsKey(edited[i], key) ==> edited[i] == line)
      && exists i :: 0 <= i < |edited| && edited[i] == line
  {
    hide SetsKey;
    var edited := SetLine(lines, key, line);
    if HasKey(lines, key) {
      var i :| 0 <= i < |lines| && SetsKey(lines[i], key);
      assert edited[i] == line;
    } else {
      assert edited[|Body(lines)|] == line;
    }
  }

  lemma {:induction false} ReadUnaffected(a: seq<string>, b: seq<string>, key: string)
    requires |a| == |b|
    requires forall i :: 0 <= i < |a| ==> a[i] == b[i] || (!AtColumnZero(a[i], key) && !AtColumnZero(b[i], key))
    ensures ReadLines(a, key) == ReadLines(b, key)
  {
    hide AtColumnZero, ValueOn;
    if a != [] {
      ReadUnaffected(a[1..], b[1..], key);
    }
  }

  lemma {:induction false} ReadAppended(a: seq<string>, b: seq<string>, key: string)
    requires forall i :: 0 <= i < |b| ==> !AtColumnZero(b[i], key)
    ensures ReadLines(a + b, key) == ReadLines(a, key)
  {
    hide AtColumnZero, ValueOn;
    if a == [] {
      assert a + b == b;
      if b != [] {
        ReadAppended([], b[1..], key);
        assert [] + b[1..] == b[1..];
      }
    } else {
      assert (a + b)[1..] == a[1..] + b;
      ReadAppended(a[1..], b, key);
    }
  }

  lemma OtherKeyElsewhere(key: string, other: string)
    requires Identifier(key) && Identifier(other) && key != other
    ensures forall l :: SetsKey(l, key) ==> !AtColumnZero(l, other)
  {
    hide SetsKey, AtColumnZero, Identifier;
    forall l | SetsKey(l, key)
      ensures !AtColumnZero(l, other)
    {
      if AtColumnZero(l, other) {
        ColumnZeroSetsKey(l, other);
        OneKeyPerLine(l, key, other);
      }
    }
  }

  lemma EmptyIsNotAtColumnZero(key: string)
    requires Identifier(key)
    ensures !AtColumnZero([], key) && !SetsKey([], key)
  {
    EmptyLineSetsNothing(key);
  }

  lemma AppendedLeavesOthers(lines: seq<string>, line: string, other: string)
    requires lines != [] && Identifier(other)
    requires !AtColumnZero(line, other) && !SetsKey(line, other) && OnlyTopLevel(lines, other)
    ensures ReadLines(Body(lines) + [line, []], other) == ReadLines(lines, other)
    ensures OnlyTopLevel(Body(lines) + [line, []], other)
  {
    hide SetsKey, AtColumnZero, ValueOn, Identifier;
    EmptyIsNotAtColumnZero(other);
    var body := Body(lines);
    ReadAppended(body, [line, []], other);
    if body != lines {
      ReadAppended(body, [[]], other);
      assert body + [[]] == lines;
    }
    hide ReadLines;
  }

  lemma ReplacedLeavesOthers(lines: seq<string>, key: string, line: string, other: string)
    requires !AtColumnZero(line, other) && !SetsKey(line, other) && OnlyTopLevel(lines, other)
    requires forall l :: SetsKey(l, key) ==> !AtColumnZero(l, other)
    ensures ReadLines(ReplaceLines(lines, key, line), other) == ReadLines(lines, other)
    ensures OnlyTopLevel(ReplaceLines(lines, key, line), other)
  {
    hide SetsKey, AtColumnZero, ValueOn;
    ReadUnaffected(ReplaceLines(lines, key, line), lines, other);
    hide ReadLines;
  }

  lemma SetLineLeavesOthers(lines: seq<string>, key: string, line: string, other: string)
    requires lines != [] && Identifier(key) && Identifier(other) && key != other
    requires !AtColumnZero(line, other) && !SetsKey(line, other) && OnlyTopLevel(lines, other)
    ensures ReadLines(SetLine(lines, key, line), other) == ReadLines(lines, other)
    ensures OnlyTopLevel(SetLine(lines, key, line), other)
  {
    hide SetsKey, AtColumnZero, ReadLines, Identifier, OnlyTopLevel, HasKey, ReplaceLines, Body;
    if HasKey(lines, key) {
      OtherKeyElsewhere(key, other);
      ReplacedLeavesOthers(lines, key, line, other);
    } else {
      AppendedLeavesOthers(lines, line, other);
    }
  }

  /** An edit of one key changes what no other key reads. */
  lemma SetLeavesOtherKeys(doc: string, key: string, value: string, quote: bool, other: string)
    requires Identifier(key) && Identifier(other) && key != other && TopLevel(doc, other)
    requires '\n' !in WrittenLine(key, value, quote)
    ensures ReadScalar(SetScalarValue(doc, key, value, quote), other) == ReadScalar(doc, other)
    ensures TopLevel(SetScalarValue(doc, key, value, quote), other)
  {
    SetScalarLines(doc, key, value, quote);
    WrittenLineSetsItsKey(key, other, if quote then Quote(value) else value);
    var line := WrittenLine(key, value, quote);
    hide WrittenLine, SetScalarValue, Split, ReadLines, OnlyTopLevel;
    SetLineLeavesOthers(Split(doc, '\n'), key, line, other);
  }

  /** The lines that do not set the key, in order. */
  function OtherLines(lines: seq<string>, key: string): seq<string> {
    if lines == [] then []
    else if SetsKey(lines[0], key) then OtherLines(lines[1..], key)
    else [lines[0]] + OtherLines(lines[1..], key)
  }

  lemma {:induction false} OtherLinesAppend(a: seq<string>, b: seq<string>, key: string)
    ensures OtherLines(a + b, key) == OtherLines(a, key) + OtherLines(b, key)
  {
    hide SetsKey;
    if a == [] {
      assert a + b == b;
    } else {
      assert (a + b)[1..] == a[1..] + b;
      OtherLinesAppend(a[1..], b, key);
    }
  }

  lemma {:induction false} OtherLinesOfReplaced(lines: seq<string>, key: string, line: string)
    requires SetsKey(line, key)
    ensures OtherLines(ReplaceLines(lines, key, line), key) == OtherLines(lines, key)
  {
    hide SetsKey;
    if lines != [] {
      assert ReplaceLines(lines, key, line)[1..] == ReplaceLines(lines[1..], key, line);
      OtherLinesOfReplaced(lines[1..], key, line);
    }
  }

  /** All other lines of the document stay as they are and where they are. */
  lemma SetKeepsOtherLines(doc: string, key: string, value: string, quote: bool)
    requires Identifier(key) && '\n' !in WrittenLine(key, value, quote)
    ensures OtherLines(Body(Split(SetScalarValue(doc, key, value, quote), '\n')), key)
         == OtherLines(Body(Split(doc, '\n')), key)
  {
    SetScalarLines(doc, key, value, quote);
    WrittenLineSetsItsKey(key, key, if quote then Quote(value) else value);
    EmptyLineSetsNothing(key);
    var line, lines := WrittenLine(key, value, quote), Split(doc, '\n');
    hide WrittenLine, SetScalarValue, Split;
    SetLineKeepsOtherLines(lines, key, line);
  }

  lemma SetLineKeepsOtherLines(lines: seq<string>, key: string, line: string)
    requires lines != [] && SetsKey(line, key) && !SetsKey([], key)
    ensures OtherLines(Body(SetLine(lines, key, line)), key) == OtherLines(Body(lines), key)
  {
    hide SetsKey;
    if HasKey(lines, key) {
      assert Body(ReplaceLines(lines, key, line)) == ReplaceLines(Body(lines), key, line) by {
        assert line != [];
      }
      OtherLinesOfReplaced(Body(lines), key, line);
    } else {
      assert Body(Body(lines) + [line, []]) == Body(lines) + [line];
      OtherLinesAppend(Body(lines), [line], key);
    }
  }
}
