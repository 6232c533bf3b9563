/** The column-zero editor behind config-set: config.go. */
module YamlTopLevel {
  import opened Results
  import opened Text
  import opened YamlQuote
  import opened YamlScalars
  import opened YamlExpand
  import opened KeyOrder

  // ----- The editor -----

  predicate HasTopLevelKey(lines: seq<string>, key: string) {
    exists i :: 0 <= i < |lines| && AtColumnZero(lines[i], key)
  }

  function ExpandLines(lines: seq<string>, key: string, line: string): (r: seq<string>)
    ensures |r| == |lines|
    ensures forall i :: 0 <= i < |lines| ==>
      r[i] == if AtColumnZero(lines[i], key) then Expand(line, lines[i]) else lines[i]
  {
    seq(|lines|, i requires 0 <= i < |lines| =>
      if AtColumnZero(lines[i], key) then Expand(line, lines[i]) else lines[i])
  }

  /** setTopLevelYamlScalar. */
  function SetTopLevel(doc: string, key: string, value: string, quote: bool): string {
    var line := WrittenLine(key, value, quote);
    var lines := Split(doc, '\n');
    if HasTopLevelKey(lines, key) then Join(ExpandLines(lines, key, line), "\n")
    else (if EndsInNewline(doc) then doc else doc + "\n") + line + "\n"
  }

  /** The key is all word characters, so an active `$` of the line is one of the value. */
  lemma InertLine(key: string, value: string, quote: bool)
    requires Identifier(key)
    ensures Inert(WrittenLine(key, value, quote)) <==> Inert(value)
  {
    KeyIsPlain(key);
    if quote {
      assert WrittenLine(key, value, true) == key + ": \"" + Closed(value);
      InertAfterPlain(key + ": \"", Closed(value));
      InertClosed(value);
    } else {
      InertAfterPlain(key + ": ", value);
    }
  }

  lemma KeyIsPlain(key: string)
    requires Identifier(key)
    ensures '$' !in key + ": " && '$' !in key + ": \"" && '\n' !in key
  {
    assert forall i :: 0 <= i < |key| ==> IsWordChar(key[i]);
  }

  /** For values without an active `$`, and keys found only at column zero, the two editors are one. */
  lemma InertEditorsAgree(doc: string, key: string, value: string, quote: bool)
    requires Identifier(key) && TopLevel(doc, key) && Inert(value)
    ensures SetTopLevel(doc, key, value, quote) == SetScalarValue(doc, key, value, quote)
  {
    var line, lines := WrittenLine(key, value, quote), Split(doc, '\n');
    InertLine(key, value, quote);
    hide WrittenLine, Split, Inert;
    forall i | 0 <= i < |lines| ensures AtColumnZero(lines[i], key) <==> SetsKey(lines[i], key) {
      if AtColumnZero(lines[i], key) {
        ColumnZeroSetsKey(lines[i], key);
      }
    }
    hide AtColumnZero, SetsKey;
    forall i | 0 <= i < |lines| ensures Expand(line, lines[i]) == line {
      InertIsKept(line, lines[i]);
    }
    assert ExpandLines(lines, key, line) == ReplaceLines(lines, key, line);
  }

  lemma ReferenceVanishes(key: string, value: string, match_: string)
    requires Identifier(key) && '$' !in key && value == ['$', 'x']
    requires Quote(value) == ['"'] + value + ['"'] && Quote([]) == ['"', '"']
    ensures Expand(WrittenLine(key, value, true), match_) == WrittenLine(key, [], true)
  {
    hide *;
    var plain := key + ": " + ['"'];
    LineWithQuote(key, value);
    LineWithQuote(key, []);
    KeyIsPlain(key);
    assert '$' !in plain;
    ExpandAfterPlain(plain, value + ['"'], match_);
    ClosingQuote(match_);
    ReferenceGoes(['"'], match_);
    assert [] + ['"'] == ['"'];
  }

  lemma LineWithQuote(key: string, value: string)
    requires Quote(value) == ['"'] + value + ['"'] || (value == [] && Quote(value) == ['"', '"'])
    ensures WrittenLine(key, value, true) == key + ": " + ['"'] + (value + ['"'])
  {
    hide Quote;
    assert value == [] ==> ['"', '"'] == ['"'] + ([] + ['"']);
  }

  lemma ClosingQuote(match_: string)
    ensures Expand(['"'], match_) == ['"'] && !IsWordChar('"')
  {
    assert ['"'][1..] == [];
  }

  /** A value that is all reference leaves the key empty wherever it is set. */
  lemma VanishingEditorsAgree(doc: string, key: string, value: string)
    requires Identifier(key) && '$' !in key && TopLevel(doc, key) && HasTopLevelKey(Split(doc, '\n'), key)
    requires value == ['$', 'x'] && Quote(value) == ['"'] + value + ['"'] && Quote([]) == ['"', '"']
    ensures SetTopLevel(doc, key, value, true) == SetScalar(doc, key, "")
  {
    var (line, empty, lines) := (WrittenLine(key, value, true), WrittenLine(key, "", true), Split(doc, '\n'));
    hide WrittenLine, Split, Quote, Expand, Identifier;
    forall i | 0 <= i < |lines|
      ensures Expand(line, lines[i]) == empty
    {
      ReferenceVanishes(key, value, lines[i]);
    }
    ColumnZeroOnly(lines, key);
    hide AtColumnZero, SetsKey, TopLevel;
    assert ExpandLines(lines, key, line) == ReplaceLines(lines, key, empty);
  }

  lemma ColumnZeroOnly(lines: seq<string>, key: string)
    requires Identifier(key) && OnlyTopLevel(lines, key)
    ensures forall i :: 0 <= i < |lines| ==> (AtColumnZero(lines[i], key) <==> SetsKey(lines[i], key))
  {
    hide AtColumnZero, SetsKey;
    forall i | 0 <= i < |lines| && AtColumnZero(lines[i], key)
      ensures SetsKey(lines[i], key)
    {
      ColumnZeroSetsKey(lines[i], key);
    }
  }

  /** The lines with every one that sets the key at column zero replaced by this one. */
  function ReplaceTopLevel(lines: seq<string>, key: string, line: string): (r: seq<string>)
    ensures |r| == |lines|
    ensures forall i :: 0 <= i < |lines| ==> r[i] == if AtColumnZero(lines[i], key) then line else lines[i]
  {
    seq(|lines|, i requires 0 <= i < |lines| => if AtColumnZero(lines[i], key) then line else lines[i])
  }

  /** Every line of the document that sets the key becomes the line that was asked for, and no other line changes. */
  predicate SetsVerbatim(doc: string, key: string, value: string, quote: bool) {
    Split(SetTopLevel(doc, key, value, quote), '\n')
    == ReplaceTopLevel(Split(doc, '\n'), key, WrittenLine(key, value, quote))
  }

  lemma InertSetsVerbatim(doc: string, key: string, value: string, quote: bool)
    requires '\n' !in WrittenLine(key, value, quote) && Inert(WrittenLine(key, value, quote))
    requires HasTopLevelKey(Split(doc, '\n'), key)
    ensures SetsVerbatim(doc, key, value, quote)
  {
    var line, lines := WrittenLine(key, value, quote), Split(doc, '\n');
    hide WrittenLine, Split, Inert, Expand, AtColumnZero;
    forall i | 0 <= i < |lines|
      ensures Expand(line, lines[i]) == line
    {
      InertIsKept(line, lines[i]);
    }
    assert ExpandLines(lines, key, line) == ReplaceTopLevel(lines, key, line);
    SplitOfJoin(ReplaceTopLevel(lines, key, line), '\n');
  }

  /** A line that sets the key has its first colon right behind the key and its blanks. */
  lemma ColonBehindKey(line: string, key: string) returns (c: nat)
    requires Identifier(key) && AtColumnZero(line, key)
    ensures FirstColon(line, c)
  {
    var tail := line[|key|..];
    c := |line| - |SkipBlanks(tail)|;
    SkippedAreBlanks(tail);
    assert line == key + tail;
    forall j | 0 <= j < c
      ensures line[j] != ':' && line[j] != '$' && line[j] != '\"' && line[j] != '\\'
    {
      if j < |key| {
        assert line[j] == key[j] && IsWordChar(key[j]);
      } else {
        assert line[j] == tail[j - |key|];
      }
    }
  }

  function TopLevelLines(lines: seq<string>, key: string, line: string): seq<string>
    requires lines != []
  {
    if HasTopLevelKey(lines, key) then ExpandLines(lines, key, line) else Body(lines) + [line, []]
  }

  /** The lines of the document after an edit. */
  lemma EditedLines(doc: string, key: string, value: string, quote: bool)
    requires '\n' !in WrittenLine(key, value, quote)
    ensures Split(SetTopLevel(doc, key, value, quote), '\n')
         == TopLevelLines(Split(doc, '\n'), key, WrittenLine(key, value, quote))
  {
    var line, lines := WrittenLine(key, value, quote), Split(doc, '\n');
    hide WrittenLine, Split, Expand, AtColumnZero, Body;
    if HasTopLevelKey(lines, key) {
      forall i | 0 <= i < |lines|
        ensures '\n' !in Expand(line, lines[i])
      {
        ExpandStaysOnOneLine(line, lines[i]);
      }
      SplitOfJoin(ExpandLines(lines, key, line), '\n');
    } else {
      JoinOfBody(doc);
      BodyIsSingleLines(lines);
      AppendedLines(Body(lines), line);
    }
  }

  lemma BodyIsSingleLines(lines: seq<string>)
    requires lines != [] && forall i :: 0 <= i < |lines| ==> '\n' !in lines[i]
    ensures Body(lines) != [] && forall i :: 0 <= i < |Body(lines)| ==> '\n' !in Body(lines)[i]
  {
  }

  lemma ActiveIsNotVerbatim(doc: string, key: string, value: string, quote: bool)
    requires Identifier(key) && '\n' !in WrittenLine(key, value, quote) && !Inert(WrittenLine(key, value, quote))
    requires HasTopLevelKey(Split(doc, '\n'), key)
    ensures !SetsVerbatim(doc, key, value, quote)
  {
    var line, lines := WrittenLine(key, value, quote), Split(doc, '\n');
    var i :| 0 <= i < |lines| && AtColumnZero(lines[i], key);
    hide WrittenLine, Split, Expand, AtColumnZero, Inert, SetTopLevel, Identifier, FirstColon;
    EditedLines(doc, key, value, quote);
    var c := ColonBehindKey(lines[i], key);
    ActiveIsChanged(line, lines[i], c);
    assert ExpandLines(lines, key, line)[i] != ReplaceTopLevel(lines, key, line)[i];
  }

  /**
   In a document that sets the key, each of the lines that do so becomes the line
   that was asked for, exactly when no `$` of the value can be taken for a reference.
   */
  lemma SetTopLevelIsVerbatim(doc: string, key: string, value: string, quote: bool)
    requires Identifier(key) && '\n' !in WrittenLine(key, value, quote) && HasTopLevelKey(Split(doc, '\n'), key)
    ensures SetsVerbatim(doc, key, value, quote) <==> Inert(value)
  {
    InertLine(key, value, quote);
    hide WrittenLine, Inert, HasTopLevelKey, SetsVerbatim, Split;
    if Inert(WrittenLine(key, value, quote)) {
      InertSetsVerbatim(doc, key, value, quote);
    } else {
      ActiveIsNotVerbatim(doc, key, value, quote);
    }
  }

  // ----- config-set never reaches inside a nested block -----

  predicate Indented(line: string) {
    line != [] && (line[0] == ' ' || line[0] == '\t')
  }

  function IndentedLines(lines: seq<string>): seq<string> {
    if lines == [] then []
    else if Indented(lines[0]) then [lines[0]] + IndentedLines(lines[1..])
    else IndentedLines(lines[1..])
  }

  lemma {:induction false} IndentedLinesAppend(a: seq<string>, b: seq<string>)
    ensures IndentedLines(a + b) == IndentedLines(a) + IndentedLines(b)
  {
    if a == [] {
      assert a + b == b;
    } else {
      assert (a + b)[1..] == a[1..] + b;
      IndentedLinesAppend(a[1..], b);
    }
  }

  lemma {:induction false} IndentedLinesOfEdited(a: seq<string>, b: seq<string>)
    requires |a| == |b|
    requires forall i :: 0 <= i < |a| ==> a[i] == b[i] || (!Indented(a[i]) && !Indented(b[i]))
    ensures IndentedLines(a) == IndentedLines(b)
  {
    if a != [] {
      IndentedLinesOfEdited(a[1..], b[1..]);
    }
  }

  lemma WrittenLineIsFlush(key: string, value: string, quote: bool, match_: string)
    requires Identifier(key)
    ensures !Indented(WrittenLine(key, value, quote)) && !Indented(Expand(WrittenLine(key, value, quote), match_))
  {
    assert IsWordChar(key[0]);
    assert WrittenLine(key, value, quote)[0] == key[0];
  }

  /** An edit leaves every indented line of the document as it is, in order. */
  lemma SetTopLevelKeepsNested(doc: string, key: string, value: string, quote: bool)
    requires Identifier(key) && '\n' !in WrittenLine(key, value, quote)
    ensures IndentedLines(Split(SetTopLevel(doc, key, value, quote), '\n')) == IndentedLines(Split(doc, '\n'))
  {
    hide *;
    var line := WrittenLine(key, value, quote);
    EditedLines(doc, key, value, quote);
    KeyLinesAreFlush(key);
    WrittenLineIsFlush(key, value, quote, []);
    forall l
      ensures !Indented(Expand(line, l))
    {
      WrittenLineIsFlush(key, value, quote, l);
    }
    EditKeepsNested(Split(doc, '\n'), key, line);
  }

  lemma KeyLinesAreFlush(key: string)
    requires Identifier(key)
    ensures forall l :: AtColumnZero(l, key) ==> !Indented(l)
  {
    assert IsWordChar(key[0]);
  }

  lemma EditKeepsNested(lines: seq<string>, key: string, line: string)
    requires lines != [] && forall l :: AtColumnZero(l, key) ==> !Indented(l)
    requires !Indented(line) && forall l :: !Indented(Expand(line, l))
    ensures IndentedLines(TopLevelLines(lines, key, line)) == IndentedLines(lines)
  {
    hide AtColumnZero, Expand, Indented, Body;
    if HasTopLevelKey(lines, key) {
      IndentedLinesOfEdited(ExpandLines(lines, key, line), lines);
    } else {
      IndentedLinesOfAppended(lines, line);
    }
  }

  lemma IndentedLinesOfAppended(lines: seq<string>, line: string)
    requires lines != [] && !Indented(line)
    ensures IndentedLines(Body(lines) + [line, []]) == IndentedLines(lines)
  {
    var body := Body(lines);
    IndentedLinesAppend(body, [line, []]);
    assert [line, []][1..] == [[]] && IndentedLines([[]]) == [];
    assert IndentedLines(body) + [] == IndentedLines(body);
    if body != lines {
      IndentedLinesAppend(body, [[]]);
      assert body + [[]] == lines;
    }
  }

  /** The key is found in the document, but only under some parent. */
  predicate NestedOnly(doc: string, key: string) {
    var lines := Split(doc, '\n');
    !HasTopLevelKey(lines, key) && exists i :: 0 <= i < |lines| && Indented(lines[i]) && SetsKey(lines[i], key)
  }

  /** That is: some line sets it, and none does so at column zero. */
  lemma NestedOnlyExactly(doc: string, key: string)
    requires Identifier(key)
    ensures NestedOnly(doc, key) <==> HasKey(Split(doc, '\n'), key) && !HasTopLevelKey(Split(doc, '\n'), key)
  {
    var lines := Split(doc, '\n');
    hide Split, Identifier, SetsKey, AtColumnZero, Indented;
    if HasKey(lines, key) && !HasTopLevelKey(lines, key) {
      var i :| 0 <= i < |lines| && SetsKey(lines[i], key);
      FlushOrIndented(lines[i], key);
      assert Indented(lines[i]) && SetsKey(lines[i], key);
    }
  }

  lemma FlushOrIndented(line: string, key: string)
    requires SetsKey(line, key)
    ensures AtColumnZero(line, key) || Indented(line)
  {
    hide AtColumnZero;
  }

  datatype Setting = Setting(key: string, value: string)

  /** Booleans and integers stay unquoted. */
  function NeedsQuotes(v: string): bool {
    !(v == "true" || v == "false" || Atoi(v).Some?)
  }

  function Apply(doc: string, s: Setting): string {
    SetTopLevel(doc, s.key, s.value, NeedsQuotes(s.value))
  }

  predicate NumberChar(c: char) {
    IsDigit(c) || c == '-' || c == '+'
  }

  lemma NumberCharacters(v: string)
    requires Atoi(v).Some?
    ensures v != [] && forall c :: c in v ==> NumberChar(c)
  {
    hide IsDigit, DigitsValue;
    if v[0] == '-' || v[0] == '+' {
      assert v == [v[0]] + v[1..] && Digits(v[1..]);
    } else {
      assert Digits(v);
    }
  }

  /** A number or a boolean reads back without quotes. */
  lemma UnquotedIsPlain(v: string)
    requires !NeedsQuotes(v)
    ensures PlainValue(v) && '\n' !in v
  {
    hide Atoi;
    if Atoi(v).Some? {
      NumberCharacters(v);
      assert v[0] in v && v[|v| - 1] in v;
    }
  }

  /** Truth values and whole numbers are written as they are, and everything else in quotes. */
  lemma WrittenBareOrQuoted(key: string, value: string)
    ensures WrittenLine(key, value, NeedsQuotes(value))
         == key + ": " + if value in {"true", "false"} || Atoi(value).Some? then value else Quote(value)
  {
    hide Quote, Atoi;
  }

  lemma SettingIsOneLine(key: string, value: string)
    requires Identifier(key)
    ensures '\n' !in WrittenLine(key, value, NeedsQuotes(value))
  {
    KeyIsPlain(key);
    hide Atoi;
    if !NeedsQuotes(value) {
      UnquotedIsPlain(value);
    }
  }

  /** The document after the first n settings. */
  function ApplyFirst(doc: string, settings: seq<Setting>, n: nat): string
    requires n <= |settings|
  {
    if n == 0 then doc else Apply(ApplyFirst(doc, settings, n - 1), settings[n - 1])
  }

  /** The settings of a map in the order of their keys. */
  function InOrder(pairs: map<string, string>): seq<Setting> {
    var keys := Sorted(pairs.Keys);
    seq(|keys|, i requires 0 <= i < |keys| => assert keys[i] in keys; Setting(keys[i], pairs[keys[i]]))
  }

  /** No setting is found only under a parent when its turn comes. */
  predicate Mergeable(doc: string, settings: seq<Setting>) {
    forall i :: 0 <= i < |settings| ==> !NestedOnly(ApplyFirst(doc, settings, i), settings[i].key)
  }

  /** The loop: merges the settings one by one, or refuses at the first nested-only key. */
  method MergeSettings(doc: string, settings: seq<Setting>) returns (r: Result<string>)
    ensures r.Ok? <==> Mergeable(doc, settings)
    ensures r.Ok? ==> r.value == ApplyFirst(doc, settings, |settings|)
  {
    hide NestedOnly, SetTopLevel, NeedsQuotes;
    var out := doc;
    for i := 0 to |settings|
      invariant out == ApplyFirst(doc, settings, i)
      invariant forall j :: 0 <= j < i ==> !NestedOnly(ApplyFirst(doc, settings, j), settings[j].key)
    {
      var s := settings[i];
      if NestedOnly(out, s.key) {
        return Err("exists only as a nested key");
      }
      out := SetTopLevel(out, s.key, s.value, NeedsQuotes(s.value));
    }
    return Ok(out);
  }

  lemma {:induction false} MergeKeepsIndented(doc: string, settings: seq<Setting>, n: nat)
    requires n <= |settings| && forall i :: 0 <= i < |settings| ==> Identifier(settings[i].key)
    ensures IndentedLines(Split(ApplyFirst(doc, settings, n), '\n')) == IndentedLines(Split(doc, '\n'))
  {
    hide SetTopLevel, NeedsQuotes, IndentedLines, Split, Identifier, WrittenLine;
    if n > 0 {
      MergeKeepsIndented(doc, settings, n - 1);
      var s := settings[n - 1];
      SettingIsOneLine(s.key, s.value);
      SetTopLevelKeepsNested(ApplyFirst(doc, settings, n - 1), s.key, s.value, NeedsQuotes(s.value));
    }
  }

  // ----- What a setting reads as -----

  lemma ExpandedLine(key: string, value: string, quote: bool, match_: string)
    requires Identifier(key)
    ensures Expand(WrittenLine(key, value, quote), match_)
         == key + ": " + Expand(if quote then Quote(value) else value, match_)
  {
    KeyIsPlain(key);
    hide Expand, Quote;
    ExpandAfterPlain(key + ": ", if quote then Quote(value) else value, match_);
  }

  /** A line that is written into its place sets its key and no other. */
  lemma ExpandedSetsItsKey(key: string, value: string, quote: bool, match_: string, other: string)
    requires Identifier(key) && Identifier(other)
    ensures var line := Expand(WrittenLine(key, value, quote), match_);
      (AtColumnZero(line, other) <==> key == other) && (SetsKey(line, other) <==> key == other)
  {
    ExpandedLine(key, value, quote, match_);
    hide *;
    WrittenLineSetsItsKey(key, other, Expand(if quote then Quote(value) else value, match_));
  }

  lemma ReadQuotedText(text: string)
    ensures ReadValue(" \"" + text) == if UnquoteBody(text).Some? then UnquoteBody(text).value else []
  {
    var line := " \"" + text;
    assert line[1..] == "\"" + text && line[1..][1..] == text;
    hide UnquoteBody;
    assert SkipBlanks(line) == line[1..];
  }

  lemma ExpandedQuoteReads(value: string, match_: string, c: nat)
    requires FirstColon(match_, c)
    ensures ReadValue(" " + Expand(Quote(value), match_)) == value <==> Inert(value)
  {
    hide *;
    var text := Expand(Closed(value), match_);
    ReadQuotedText(text);
    ReadsBackIfInert(value, match_, c);
    ReadBackIs(value, match_);
    ExpandedQuote(value, match_);
    QuoteAfterBlank(text);
  }

  lemma ReadBackIs(value: string, match_: string)
    ensures ReadBack(value, match_) == UnquoteBody(Expand(Closed(value), match_))
    ensures value == [] ==> ReadBack(value, match_) == Some(value)
  {
    EmptyReadsBack(match_);
  }

  lemma ExpandedQuote(value: string, match_: string)
    ensures Expand(Quote(value), match_) == "\"" + Expand(Closed(value), match_)
  {
    assert Quote(value) == "\"" + Closed(value);
    hide Expand, Closed, Quote;
    ExpandAfterPlain("\"", Closed(value), match_);
  }

  lemma QuoteAfterBlank(text: string)
    ensures " " + ("\"" + text) == " \"" + text
  {
  }

  /** A line that sets the key reads as the value once it is rewritten, exactly when no `$` of the value is active. */
  lemma ExpandedReads(key: string, value: string, match_: string)
    requires Identifier(key) && AtColumnZero(match_, key)
    ensures var line := Expand(WrittenLine(key, value, NeedsQuotes(value)), match_);
      AtColumnZero(line, key) && (ValueOn(line, key) == value <==> Inert(value))
  {
    var quote := NeedsQuotes(value);
    var text := Expand(if quote then Quote(value) else value, match_);
    ExpandedLine(key, value, quote, match_);
    ExpandedSetsItsKey(key, value, quote, match_, key);
    hide Expand, Quote, AtColumnZero, Identifier, WrittenLine, ReadValue, ValueOn, NeedsQuotes;
    ValueOfText(key, text);
    if quote {
      var c := ColonBehindKey(match_, key);
      ExpandedQuoteReads(value, match_, c);
    } else {
      UnquotedIsPlain(value);
      UnquotedIsInert(value);
      InertIsKept(value, match_);
      ReadPlain(value);
    }
  }

  lemma UnquotedIsInert(value: string)
    requires !NeedsQuotes(value)
    ensures Inert(value)
  {
    hide Atoi;
    if Atoi(value).Some? {
      NumberCharacters(value);
    }
    NoDollarIsInert(value);
  }

  lemma FirstTopLevel(lines: seq<string>, key: string) returns (i: nat)
    requires HasTopLevelKey(lines, key)
    ensures i < |lines| && AtColumnZero(lines[i], key) && forall j :: 0 <= j < i ==> !AtColumnZero(lines[j], key)
  {
    hide AtColumnZero;
    i := 0;
    while !AtColumnZero(lines[i], key)
      invariant i < |lines| && forall j :: 0 <= j < i ==> !AtColumnZero(lines[j], key)
      decreases |lines| - i
    {
      i := i + 1;
    }
  }

  lemma {:induction false} ReadAt(lines: seq<string>, key: string, i: nat)
    requires i < |lines| && AtColumnZero(lines[i], key) && forall j :: 0 <= j < i ==> !AtColumnZero(lines[j], key)
    ensures ReadLines(lines, key) == ValueOn(lines[i], key)
  {
    hide AtColumnZero, ValueOn;
    if i > 0 {
      ReadAt(lines[1..], key, i - 1);
    }
  }

  lemma {:induction false} ReadSkips(a: seq<string>, b: seq<string>, key: string)
    requires forall j :: 0 <= j < |a| ==> !AtColumnZero(a[j], key)
    ensures ReadLines(a + b, key) == ReadLines(b, key)
  {
    hide AtColumnZero, ValueOn;
    if a == [] {
      assert a + b == b;
    } else {
      assert (a + b)[1..] == a[1..] + b;
      ReadSkips(a[1..], b, key);
    }
  }

  lemma ReadNewKey(lines: seq<string>, key: string, line: string)
    requires lines != [] && !HasTopLevelKey(lines, key) && AtColumnZero(line, key)
    ensures ReadLines(Body(lines) + [line, []], key) == ValueOn(line, key)
  {
    hide AtColumnZero, ValueOn;
    ReadSkips(Body(lines), [line, []], key);
  }

  /** What is read after a setting is what was set, exactly when the key is new or no `$` of the value is active. */
  lemma SettingReads(doc: string, key: string, value: string)
    requires Identifier(key)
    ensures ReadScalar(Apply(doc, Setting(key, value)), key) == value
       <==> Inert(value) || !HasTopLevelKey(Split(doc, '\n'), key)
  {
    var quote := NeedsQuotes(value);
    var line, lines := WrittenLine(key, value, quote), Split(doc, '\n');
    SettingIsOneLine(key, value);
    EditedLines(doc, key, value, quote);
    if HasTopLevelKey(lines, key) {
      var i := FirstTopLevel(lines, key);
      ExpandedReads(key, value, lines[i]);
      hide WrittenLine, SetTopLevel, AtColumnZero, ValueOn, NeedsQuotes, Inert, Expand, ReadLines, Split;
      ReadAt(ExpandLines(lines, key, line), key, i);
    } else {
      if !quote {
        UnquotedIsPlain(value);
      }
      ValueOfWrittenLine(key, value, quote);
      hide WrittenLine, SetTopLevel, AtColumnZero, ValueOn, NeedsQuotes, Inert, Expand, ReadLines, Split;
      ReadNewKey(lines, key, line);
    }
  }

  /** A key found at column zero only, this one or another, is found there only after a setting. */
  lemma SettingKeepsTopLevel(doc: string, key: string, value: string, other: string)
    requires Identifier(key) && Identifier(other) && TopLevel(doc, other)
    ensures TopLevel(Apply(doc, Setting(key, value)), other)
  {
    var quote := NeedsQuotes(value);
    var line, lines := WrittenLine(key, value, quote), Split(doc, '\n');
    hide *;
    SettingIsOneLine(key, value);
    EditedLines(doc, key, value, quote);
    ApplyIsSet(doc, key, value);
    WrittenSetsItsKey(key, value, quote, other);
    forall l
      ensures SetsKey(Expand(line, l), other) ==> AtColumnZero(Expand(line, l), other)
    {
      ExpandedSetsItsKey(key, value, quote, l, other);
    }
    TopLevelOfLines(doc, other);
    TopLevelIsKept(lines, key, line, other);
    TopLevelOfLines(Apply(doc, Setting(key, value)), other);
  }

  lemma ApplyIsSet(doc: string, key: string, value: string)
    ensures Apply(doc, Setting(key, value)) == SetTopLevel(doc, key, value, NeedsQuotes(value))
  {
  }

  lemma WrittenSetsItsKey(key: string, value: string, quote: bool, other: string)
    requires Identifier(key) && Identifier(other)
    ensures var line := WrittenLine(key, value, quote);
      (AtColumnZero(line, other) <==> key == other) && (SetsKey(line, other) <==> key == other)
  {
    hide Quote, Identifier, AtColumnZero, SetsKey;
    WrittenLineSetsItsKey(key, other, if quote then Quote(value) else value);
  }

  lemma TopLevelOfLines(doc: string, key: string)
    ensures TopLevel(doc, key) <==> OnlyTopLevel(Split(doc, '\n'), key)
  {
  }

  lemma TopLevelIsKept(lines: seq<string>, key: string, line: string, other: string)
    requires lines != [] && Identifier(other) && OnlyTopLevel(lines, other)
    requires SetsKey(line, other) ==> AtColumnZero(line, other)
    requires forall l :: SetsKey(Expand(line, l), other) ==> AtColumnZero(Expand(line, l), other)
    ensures OnlyTopLevel(TopLevelLines(lines, key, line), other)
  {
    EmptyIsNotAtColumnZero(other);
    hide Identifier, SetsKey, AtColumnZero, Expand, HasTopLevelKey;
  }

  lemma ExpandedKeepsOthers(lines: seq<string>, key: string, line: string, other: string)
    requires Identifier(key) && Identifier(other) && key != other
    requires forall l :: !AtColumnZero(Expand(line, l), other)
    requires forall l :: !SetsKey(Expand(line, l), other)
    ensures HasTopLevelKey(ExpandLines(lines, key, line), other) <==> HasTopLevelKey(lines, other)
    ensures HasKey(ExpandLines(lines, key, line), other) <==> HasKey(lines, other)
    ensures ReadLines(ExpandLines(lines, key, line), other) == ReadLines(lines, other)
  {
    hide AtColumnZero, SetsKey, Expand, ReadLines, Identifier;
    var edited := ExpandLines(lines, key, line);
    OtherKeyElsewhere(key, other);
    forall i | 0 <= i < |lines|
      ensures edited[i] == lines[i] || (!AtColumnZero(edited[i], other) && !AtColumnZero(lines[i], other))
      ensures edited[i] == lines[i] || (!SetsKey(edited[i], other) && !SetsKey(lines[i], other))
    {
      if AtColumnZero(lines[i], key) {
        ColumnZeroSetsKey(lines[i], key);
        OneKeyOnly(lines[i], key, other);
      }
    }
    SameKeys(edited, lines, other);
    ReadUnaffected(edited, lines, other);
  }

  lemma OneKeyOnly(line: string, key: string, other: string)
    requires Identifier(key) && Identifier(other) && key != other && SetsKey(line, key)
    ensures !SetsKey(line, other)
  {
    hide SetsKey, Identifier;
    if SetsKey(line, other) {
      OneKeyPerLine(line, key, other);
    }
  }

  lemma SameKeys(a: seq<string>, b: seq<string>, key: string)
    requires |a| == |b| && forall i :: 0 <= i < |a| ==> a[i] == b[i] || (!SetsKey(a[i], key) && !SetsKey(b[i], key))
    ensures HasKey(a, key) <==> HasKey(b, key)
  {
    hide SetsKey;
    if HasKey(a, key) {
      var i :| 0 <= i < |a| && SetsKey(a[i], key);
      assert SetsKey(b[i], key);
    }
    if HasKey(b, key) {
      var i :| 0 <= i < |b| && SetsKey(b[i], key);
      assert SetsKey(a[i], key);
    }
  }

  lemma NewLineKeepsOthers(lines: seq<string>, line: string, other: string)
    requires lines != [] && Identifier(other) && !AtColumnZero(line, other) && !SetsKey(line, other)
    ensures HasTopLevelKey(Body(lines) + [line, []], other) <==> HasTopLevelKey(lines, other)
    ensures HasKey(Body(lines) + [line, []], other) <==> HasKey(lines, other)
    ensures ReadLines(Body(lines) + [line, []], other) == ReadLines(lines, other)
  {
    hide AtColumnZero, ReadLines, Identifier, SetsKey;
    KeyWithNewLine(lines, line, other);
    EmptyIsNotAtColumnZero(other);
    var (body, all) := (Body(lines), Body(lines) + [line, []]);
    ReadAppended(body, [line, []], other);
    if body != lines {
      ReadAppended(body, [[]], other);
      assert body + [[]] == lines;
    }
    if HasTopLevelKey(lines, other) {
      var i :| 0 <= i < |lines| && AtColumnZero(lines[i], other);
      assert all[i] == lines[i];
    }
  }

  lemma KeyWithNewLine(lines: seq<string>, line: string, other: string)
    requires lines != [] && Identifier(other) && !SetsKey(line, other)
    ensures HasKey(Body(lines) + [line, []], other) <==> HasKey(lines, other)
  {
    EmptyLineSetsNothing(other);
    hide SetsKey, Identifier;
    var all := Body(lines) + [line, []];
    if HasKey(lines, other) {
      var i :| 0 <= i < |lines| && SetsKey(lines[i], other);
      assert all[i] == lines[i];
    }
    if HasKey(all, other) {
      var i :| 0 <= i < |all| && SetsKey(all[i], other);
      assert i < |Body(lines)| && lines[i] == all[i];
    }
  }

  /** In any document at all, a setting neither changes what another key reads nor whether it is there. */
  lemma SettingKeepsOthers(doc: string, key: string, value: string, other: string)
    requires Identifier(key) && Identifier(other) && key != other
    ensures ReadScalar(Apply(doc, Setting(key, value)), other) == ReadScalar(doc, other)
    ensures HasTopLevelKey(Split(Apply(doc, Setting(key, value)), '\n'), other)
       <==> HasTopLevelKey(Split(doc, '\n'), other)
    ensures HasKey(Split(Apply(doc, Setting(key, value)), '\n'), other) <==> HasKey(Split(doc, '\n'), other)
  {
    var quote := NeedsQuotes(value);
    var line, lines := WrittenLine(key, value, quote), Split(doc, '\n');
    SettingIsOneLine(key, value);
    EditedLines(doc, key, value, quote);
    WrittenLineSetsItsKey(key, other, if quote then Quote(value) else value);
    forall l
      ensures !AtColumnZero(Expand(line, l), other) && !SetsKey(Expand(line, l), other)
    {
      ExpandedSetsItsKey(key, value, quote, l, other);
    }
    hide WrittenLine, SetTopLevel, NeedsQuotes, Split, Identifier, Quote, AtColumnZero, SetsKey, ReadLines, Expand;
    if HasTopLevelKey(lines, key) {
      ExpandedKeepsOthers(lines, key, line, other);
    } else {
      NewLineKeepsOthers(lines, line, other);
    }
  }

  lemma {:induction false} MergeKeepsOthers(doc: string, settings: seq<Setting>, n: nat, other: string)
    requires n <= |settings| && Identifier(other)
    requires forall i :: 0 <= i < n ==> Identifier(settings[i].key) && settings[i].key != other
    ensures ReadScalar(ApplyFirst(doc, settings, n), other) == ReadScalar(doc, other)
    ensures HasTopLevelKey(Split(ApplyFirst(doc, settings, n), '\n'), other)
       <==> HasTopLevelKey(Split(doc, '\n'), other)
    ensures HasKey(Split(ApplyFirst(doc, settings, n), '\n'), other) <==> HasKey(Split(doc, '\n'), other)
  {
    hide Apply, ReadScalar, Split, Identifier, HasTopLevelKey, HasKey;
    if n > 0 {
      MergeKeepsOthers(doc, settings, n - 1, other);
      var s := settings[n - 1];
      SettingKeepsOthers(ApplyFirst(doc, settings, n - 1), s.key, s.value, other);
    }
  }

  /** A key that one of the settings gives reads as that one set it. */
  lemma {:induction false} MergeReads(doc: string, settings: seq<Setting>, n: nat, i: nat)
    requires i < n <= |settings|
    requires forall j :: 0 <= j < |settings| ==>
      Identifier(settings[j].key) && (j != i ==> settings[j].key != settings[i].key)
    ensures ReadScalar(ApplyFirst(doc, settings, n), settings[i].key) == settings[i].value
       <==> Inert(settings[i].value) || !HasTopLevelKey(Split(doc, '\n'), settings[i].key)
  {
    hide Apply, ReadScalar, Split, Identifier, HasTopLevelKey, Inert;
    var before, s := ApplyFirst(doc, settings, n - 1), settings[n - 1];
    if i == n - 1 {
      MergeKeepsOthers(doc, settings, i, s.key);
      SettingReads(before, s.key, s.value);
    } else {
      MergeReads(doc, settings, n - 1, i);
      SettingKeepsOthers(before, s.key, s.value, settings[i].key);
    }
  }

  lemma SettingsAreDistinct(pairs: map<string, string>)
    ensures var settings := InOrder(pairs);
      && (forall i :: 0 <= i < |settings| ==> settings[i].key in pairs && settings[i].value == pairs[settings[i].key])
      && (forall i, j :: 0 <= i < j < |settings| ==> settings[i].key != settings[j].key)
      && forall k :: k in pairs ==> exists i :: 0 <= i < |settings| && settings[i].key == k
  {
    var (keys, settings) := (Sorted(pairs.Keys), InOrder(pairs));
    SortedAscends(pairs.Keys);
    forall i, j | 0 <= i < j < |settings|
      ensures settings[i].key != settings[j].key
    {
      LessIsStrict(keys[i], keys[j]);
    }
    forall k | k in pairs
      ensures exists i :: 0 <= i < |settings| && settings[i].key == k
    {
      assert k in keys;
      var i :| 0 <= i < |keys| && keys[i] == k;
      assert settings[i].key == k;
    }
  }

  /** A merge is refused exactly if one of its keys is in the document, but at column zero nowhere. */
  lemma MergeIsRefusedExactly(doc: string, pairs: map<string, string>)
    requires forall k :: k in pairs ==> Identifier(k)
    ensures Mergeable(doc, InOrder(pairs)) <==>
      forall k :: k in pairs ==> HasKey(Split(doc, '\n'), k) ==> HasTopLevelKey(Split(doc, '\n'), k)
  {
    SettingsAreDistinct(pairs);
    hide InOrder, ApplyFirst, Split, Identifier, HasTopLevelKey, HasKey, NestedOnly;
    var (settings, lines) := (InOrder(pairs), Split(doc, '\n'));
    forall i | 0 <= i < |settings|
      ensures NestedOnly(ApplyFirst(doc, settings, i), settings[i].key)
         <==> HasKey(lines, settings[i].key) && !HasTopLevelKey(lines, settings[i].key)
    {
      MergeKeepsOthers(doc, settings, i, settings[i].key);
      NestedOnlyExactly(ApplyFirst(doc, settings, i), settings[i].key);
    }
    if Mergeable(doc, settings) {
      forall k | k in pairs
        ensures HasKey(lines, k) ==> HasTopLevelKey(lines, k)
      {
        var i :| 0 <= i < |settings| && settings[i].key == k;
        assert !NestedOnly(ApplyFirst(doc, settings, i), settings[i].key);
      }
    }
  }

  /**
   After a merge each given key reads as it was set, exactly when the key is new
   or no `$` of the value is active, and each other key reads as before.
   */
  lemma MergedReads(doc: string, pairs: map<string, string>, key: string)
    requires Identifier(key) && forall k :: k in pairs ==> Identifier(k)
    ensures var settings := InOrder(pairs);
      var found := ReadScalar(ApplyFirst(doc, settings, |settings|), key);
      if key in pairs then (found == pairs[key] <==> Inert(pairs[key]) || !HasTopLevelKey(Split(doc, '\n'), key))
      else found == ReadScalar(doc, key)
  {
    SettingsAreDistinct(pairs);
    hide InOrder, ApplyFirst, ReadScalar, Split, Identifier, HasTopLevelKey, Inert;
    var settings := InOrder(pairs);
    if key in pairs {
      var i :| 0 <= i < |settings| && settings[i].key == key;
      MergeReads(doc, settings, |settings|, i);
    } else {
      MergeKeepsOthers(doc, settings, |settings|, key);
    }
  }

  /** A configuration file that is replaced by way of a temporary one. */
  class ConfigFile {
    var content: string

    constructor (doc: string)
      ensures content == doc
    {
      content := doc;
    }

    /**
     Merges the settings in the order of their keys.  A setting found only under a
     parent, a result that is no valid YAML and any failed operation leave the file alone.
     */
    method ApplyConfigValues(pairs: map<string, string>, valid: string -> bool,
                             readOk: bool, writeOk: bool, renameOk: bool)
      returns (ok: bool)
      modifies this
      ensures var (before, settings) := (old(content), InOrder(pairs));
        var after := ApplyFirst(before, settings, |settings|);
        && (ok <==> readOk && Mergeable(before, settings) && valid(after) && writeOk && renameOk)
        && content == if ok then after else before
    {
      hide Mergeable, ApplyFirst, InOrder;
      if !readOk {
        return false;
      }
      var merged := MergeSettings(content, InOrder(pairs));
      if merged.Err? || !valid(merged.value) || !writeOk || !renameOk {
        return false;
      }
      content := merged.value;
      return true;
    }
  }
}
