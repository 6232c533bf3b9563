/** Additions on the text of agent.yml, with any type at all: addYamlListItem in config.go. */
module ServicesAdds {
  import opened Results
  import opened Text
  import opened YamlScalars
  import opened YamlExpand
  import opened YamlTopLevel
  import opened ServicesText
  import opened ServicesList
  import opened ServicesDoc
  import opened ServicesEdits

  /** The type reads back from where it is written; only a `services: []` expands `$` in it. */
  predicate Writable(d: Doc, subtype: string) {
    Fits(subtype) && (d.EmptyList? ==> Inert(subtype))
  }

  // ----- What a document lists -----

  /** The key of the list registers nothing. */
  lemma FrontIsListed(pre: seq<string>, head: string, item: string)
    requires AtColumnZero(head, SERVICES)
    ensures Listed(pre + [head], item) <==> Listed(pre, item)
  {
    HeadIsOther(head);
    hide Classify;
    ListedLast(pre, head, item);
  }

  /** A document lists a name in its block, as an entry, or outside. */
  lemma ListedIsService(d: Doc, item: string)
    requires WellFormed(d)
    ensures Listed(d.Lines(), item) <==> HasEntry(d.Services(), item) || !FreeOutside(d, item)
  {
    if !d.NoList? {
      FrontIsListed(d.pre, d.head, item);
    }
    NoEntryInNone(item);
    EmptyListsNothing(item);
    hide WellFormed, Listed, HasEntry, Entries;
    match d {
      case NoList(pre) =>
      case EmptyList(pre, head, post) =>
        ListedAppend(pre + [head], post, item);
      case BlockList(pre, head, block, post) =>
        ListedIsEntry(block, item);
        ListedAppend(pre + [head], block, item);
        ListedAppend(pre + [head] + block, post, item);
    }
  }

  // ----- Expanding `services: []` -----

  lemma {:induction false} NoInlineLeft(lines: seq<string>, entry: seq<string>)
    requires forall i :: 0 <= i < |lines| ==> !InlineEmpty(lines[i], SERVICES)
    ensures ReplaceInline(lines, SERVICES, entry) == lines
  {
    hide InlineEmpty;
    if lines != [] {
      NoInlineLeft(lines[1..], entry);
    }
  }

  /** What stands in the replacement text before the type. */
  function BeforeType(name: string): string {
    SERVICES + ":\n  - name: " + name + "\n    subtype: "
  }

  lemma BeforeTypeIsPlain(name: string)
    requires ValidName(name)
    ensures '$' !in BeforeType(name)
  {
    NameIsOneLine(name);
    assert '$' !in SERVICES;
    assert '$' !in ":\n  - name: " && '$' !in "\n    subtype: ";
    hide SERVICES, ValidName;
  }

  lemma TextOfTwo(a: string, b: string)
    ensures TextOf([a, b]) == a + "\n" + b + "\n"
  {
    assert [a, b] + [[]] == [a, b, []] && [a, b, []][1..] == [b, []] && [b, []][1..] == [[]];
    assert Join([b, []], "\n") == b + "\n" + [];
  }

  lemma TextOfThree(a: string, b: string, c: string)
    ensures TextOf([a, b, c]) == a + "\n" + b + "\n" + c + "\n"
  {
    TextOfTwo(b, c);
    assert [a, b, c] + [[]] == [a] + ([b, c] + [[]]);
    assert ([a] + ([b, c] + [[]]))[1..] == [b, c] + [[]];
    Regroup(a + "\n", b + "\n", c + "\n");
    hide Join;
  }

  /** The replacement text with a type. */
  lemma Template(name: string, subtype: string)
    requires subtype != ""
    ensures TextOf([SERVICES + ":"] + EntryLines(name, subtype)) == BeforeType(name) + (subtype + "\n")
  {
    hide *;
    var (head, item, line) := (SERVICES + ":", "  - name: " + name, "    subtype: " + subtype);
    EntryLinesAre(name, subtype);
    TextOfThree(head, item, line);
    assert [head] + [item, line] == [head, item, line];
    Pieces(SERVICES, name, subtype);
    BeforeTypeIs(name);
  }

  lemma BeforeTypeIs(name: string)
    ensures BeforeType(name) == SERVICES + ":\n  - name: " + name + "\n    subtype: "
  {
  }

  lemma Pieces(key: string, name: string, subtype: string)
    ensures key + ":" + "\n" + ("  - name: " + name) + "\n" + ("    subtype: " + subtype) + "\n"
         == key + ":\n  - name: " + name + "\n    subtype: " + (subtype + "\n")
  {
  }

  lemma TemplateIsInert(name: string, subtype: string)
    requires ValidName(name)
    ensures Inert(TextOf([SERVICES + ":"] + EntryLines(name, subtype))) <==> Inert(subtype)
  {
    if subtype != "" {
      Template(name, subtype);
      BeforeTypeIsPlain(name);
      InertAfterPlain(BeforeType(name), subtype + "\n");
      InertBeforeNewline(subtype);
    } else {
      ScalarTemplate(name);
    }
    hide Inert, TextOf, EntryLines, BeforeType, ValidName, SERVICES;
  }

  lemma ScalarTemplate(name: string)
    requires ValidName(name)
    ensures Inert(TextOf([SERVICES + ":"] + EntryLines(name, ""))) && Inert("")
  {
    NameIsOneLine(name);
    var item := "  - " + name;
    TextOfTwo(SERVICES + ":", item);
    assert [SERVICES + ":"] + EntryLines(name, "") == [SERVICES + ":", item];
    assert '$' !in SERVICES && '$' !in item;
    hide TextOf, SERVICES, ValidName;
    NoDollarIsInert(SERVICES + ":" + "\n" + item + "\n");
  }

  /** The text that the pattern takes: the line and the blank lines behind it. */
  function Matched(head: string, post: seq<string>): string {
    Join([head] + post[..|post| - |SkipBlankLines(post)|], "\n")
  }

  lemma ReplacementIsVerbatim(name: string, subtype: string, matched: string)
    requires ValidName(name) && '\n' !in subtype && Inert(subtype)
    ensures ReplacementLines(SERVICES, EntryLines(name, subtype), matched)
         == [SERVICES + ":"] + EntryLines(name, subtype)
  {
    hide *;
    var entry := EntryLines(name, subtype);
    var lines := [SERVICES + ":"] + entry;
    ReplacementIsSingle(name, subtype);
    TemplateIsInert(name, subtype);
    InertIsKept(TextOf(lines), matched);
    LinesOfText(lines);
    ReplacementOf(entry, matched, lines);
  }

  lemma ReplacementIsSingle(name: string, subtype: string)
    requires ValidName(name) && '\n' !in subtype
    ensures var lines := [SERVICES + ":"] + EntryLines(name, subtype);
      forall i :: 0 <= i < |lines| ==> '\n' !in lines[i]
  {
    WrittenHead();
    EntryLinesFit(name, subtype);
    hide NotKey, InBlock, SERVICES, AtColumnZero, EntryLines, BlockKey, InlineEmpty, ValidName;
  }

  lemma InlineReplacement(lines: seq<string>, entry: seq<string>)
    requires lines != [] && InlineEmpty(lines[0], SERVICES)
    ensures var rest := SkipBlankLines(lines[1..]);
      ReplaceInline(lines, SERVICES, entry)
      == ReplacementLines(SERVICES, entry, Join(lines[..|lines| - |rest|], "\n"))
         + (if rest == [] then [] else [[]] + ReplaceInline(rest, SERVICES, entry))
  {
    hide InlineEmpty, ReplacementLines, SERVICES, Join, SkipBlankLines;
  }

  lemma TailIsFree(post: seq<string>)
    requires forall i :: 0 <= i < |post| ==> !InlineEmpty(post[i], SERVICES)
    ensures forall i :: 0 <= i < |SkipBlankLines(post)| ==> !InlineEmpty(SkipBlankLines(post)[i], SERVICES)
  {
    hide InlineEmpty, SERVICES;
  }

  lemma InlineHeadIsReplaced(head: string, post: seq<string>, entry: seq<string>)
    requires forall i :: 0 <= i < |post| ==> !InlineEmpty(post[i], SERVICES)
    requires InlineEmpty(head, SERVICES)
    ensures ReplaceInline([head] + post, SERVICES, entry)
         == ReplacementLines(SERVICES, entry, Matched(head, post)) + ExpandedTail(post)
  {
    hide *;
    var (lines, rest) := ([head] + post, SkipBlankLines(post));
    assert lines[0] == head && lines[1..] == post;
    InlineReplacement(lines, entry);
    TailIsFree(post);
    NoInlineLeft(rest, entry);
    MatchedIs(head, post);
    ExpandedTailIs(post);
  }

  lemma MatchedIs(head: string, post: seq<string>)
    ensures var lines := [head] + post;
      Matched(head, post) == Join(lines[..|lines| - |SkipBlankLines(post)|], "\n")
  {
    var (lines, n) := ([head] + post, |post| - |SkipBlankLines(post)|);
    hide SkipBlankLines, Join;
    assert lines[..n + 1] == [head] + post[..n];
  }

  lemma ExpandedTailIs(post: seq<string>)
    ensures var rest := SkipBlankLines(post); ExpandedTail(post) == if rest == [] then [] else [[]] + rest
  {
  }

  lemma {:induction false} InlineIsReplaced(pre: seq<string>, head: string, post: seq<string>, entry: seq<string>)
    requires forall i :: 0 <= i < |pre| ==> !InlineEmpty(pre[i], SERVICES)
    requires forall i :: 0 <= i < |post| ==> !InlineEmpty(post[i], SERVICES)
    requires InlineEmpty(head, SERVICES)
    ensures ReplaceInline(pre + ([head] + post), SERVICES, entry)
         == pre + (ReplacementLines(SERVICES, entry, Matched(head, post)) + ExpandedTail(post))
  {
    hide InlineEmpty, SERVICES, Matched, ReplacementLines, ExpandedTail, SkipBlankLines;
    if pre == [] {
      InlineHeadIsReplaced(head, post, entry);
      assert pre + ([head] + post) == [head] + post;
    } else {
      var lines := pre + ([head] + post);
      assert lines[1..] == pre[1..] + ([head] + post) && lines[0] == pre[0];
      InlineIsReplaced(pre[1..], head, post, entry);
    }
  }

  lemma InlineIsFound(pre: seq<string>, head: string, post: seq<string>, entry: seq<string>)
    requires InlineEmpty(head, SERVICES)
    ensures AddToLines(pre + [head] + post, SERVICES, entry) == ReplaceInline(pre + [head] + post, SERVICES, entry)
  {
    hide InlineEmpty, ReplaceInline, LastBlockKey, BlockEnd, SERVICES;
    assert InlineEmpty((pre + [head] + post)[|pre|], SERVICES);
  }

  /** The lines of the text after an addition to a `services: []`, whatever the entry. */
  lemma ExpandedLines(d: Doc, entry: seq<string>)
    requires WellFormed(d) && d.EmptyList?
    ensures AddToLines(d.Lines(), SERVICES, entry)
         == d.pre + (ReplacementLines(SERVICES, entry, Matched(d.head, d.post)) + ExpandedTail(d.post))
  {
    InlineIsFound(d.pre, d.head, d.post, entry);
    InlineIsReplaced(d.pre, d.head, d.post, entry);
    hide WellFormed, InlineEmpty, ReplaceInline, AddToLines, SERVICES, Matched, ReplacementLines, ExpandedTail;
    Regroup(d.pre, [d.head], d.post);
  }

  lemma AddedToEmpty(d: Doc, name: string, subtype: string)
    requires WellFormed(d) && d.EmptyList? && ValidName(name) && '\n' !in subtype && Inert(subtype)
    ensures AddToLines(d.Lines(), SERVICES, EntryLines(name, subtype)) == Edited(d, Add(name, subtype)).Lines()
  {
    ExpandedLines(d, EntryLines(name, subtype));
    ReplacementIsVerbatim(name, subtype, Matched(d.head, d.post));
    ExpansionKeepsTail(d, name, subtype);
    hide *;
    Regroup(d.pre, [SERVICES + ":"] + EntryLines(name, subtype), ExpandedTail(d.post));
    Regroup(d.pre, [SERVICES + ":"], EntryLines(name, subtype));
  }

  lemma AddedToBlock(d: Doc, entry: seq<string>)
    requires WellFormed(d) && d.BlockList?
    ensures AddToLines(d.Lines(), SERVICES, entry) == d.pre + [d.head] + (d.block + entry) + d.post
  {
    NoInlineIn(d);
    BlockIsFound(d);
    hide WellFormed, LastBlockKey, BlockEnd, InlineEmpty, ReplaceInline, SERVICES;
    Regroup(d.pre + [d.head], d.block, entry);
  }

  lemma AddedToNone(d: Doc, entry: seq<string>)
    requires WellFormed(d) && d.NoList?
    ensures AddToLines(d.Lines(), SERVICES, entry) == d.pre + [SERVICES + ":"] + entry
  {
    NoInlineIn(d);
    hide WellFormed, LastBlockKey, InlineEmpty, ReplaceInline, SERVICES;
  }

  lemma AddedLines(d: Doc, name: string, subtype: string)
    requires WellFormed(d) && ValidName(name) && '\n' !in subtype && (d.EmptyList? ==> Inert(subtype))
    ensures AddToLines(d.Lines(), SERVICES, EntryLines(name, subtype)) == Edited(d, Add(name, subtype)).Lines()
  {
    var entry := EntryLines(name, subtype);
    hide WellFormed, AddToLines, SERVICES, EntryLines, ValidName, SkipBlankLines;
    match d {
      case NoList(_) => AddedToNone(d, entry);
      case EmptyList(_, _, _) =>
        hide Doc.Lines, Edited;
        AddedToEmpty(d, name, subtype);
      case BlockList(_, _, _, _) => AddedToBlock(d, entry);
    }
  }

  // ----- A type that is not writable is never read -----

  /** No text at all holds a service whose type does not fit. */
  lemma ReadTypesFit(text: string, subtype: string)
    requires !Fits(subtype)
    ensures forall k :: 0 <= k < |ServicesIn(text)| ==> ServicesIn(text)[k].subtype != subtype
  {
    var lines := TerminatedLines(text);
    TrimOfNothing();
    assert subtype != "";
    hide TerminatedLines, TrimSpace, LastBlockKey, BlockEnd;
    match LastBlockKey(lines, SERVICES)
    case None =>
    case Some(i) =>
      var block := lines[i + 1..BlockEnd(lines, i + 1)];
      hide ServicesIn;
      ServicesOfBlock(text, i);
      TypesAreRead(block);
      forall k | 0 <= k < |Entries(block)|
        ensures Entries(block)[k].subtype != subtype
      {
        if Entries(block)[k].subtype == subtype {
          var line := LineOfType(subtype, block);
          TypeOfLine(line, subtype);
        }
      }
  }

  lemma ServicesOfBlock(text: string, i: nat)
    requires LastBlockKey(TerminatedLines(text), SERVICES) == Some(i)
    ensures var lines := TerminatedLines(text);
      ServicesIn(text) == Entries(lines[i + 1..BlockEnd(lines, i + 1)])
  {
    hide TerminatedLines, LastBlockKey, BlockEnd, Entries;
  }

  lemma LineOfType(subtype: string, block: seq<string>) returns (line: string)
    requires subtype != "" && ReadFrom(subtype, block)
    ensures line in block && Classify(line) == Continuation(Some(subtype))
  {
    hide Classify;
    var i :| 0 <= i < |block| && Classify(block[i]) == Continuation(Some(subtype));
    line := block[i];
  }

  // ----- Counting `$` -----

  lemma {:induction false} SkippedDollars(s: string)
    ensures Dollars(SkipBlanks(s)) == Dollars(s) && Dollars(SkipSpaces(s)) == Dollars(s)
  {
    if s != [] && (s[0] == ' ' || s[0] == '\t' || RegexSpace(s[0])) {
      SkippedDollars(s[1..]);
    }
  }

  lemma {:induction false} DroppedDollars(s: string)
    ensures Dollars(DropSpaces(s)) == Dollars(s)
  {
    if s != [] && RegexSpace(s[|s| - 1]) {
      var (front, last) := (s[..|s| - 1], s[|s| - 1]);
      DroppedDollars(front);
      assert s == front + [last];
      DollarsAppend(front, [last]);
      OneDollar(last);
    }
  }

  lemma BlankHasNone(s: string)
    requires IsBlank(s)
    ensures Dollars(s) == 0
  {
    SkippedDollars(s);
  }

  /** A `services: []` holds none. */
  lemma InlineHasNone(head: string)
    requires InlineEmpty(head, SERVICES)
    ensures Dollars(head) == 0
  {
    hide *;
    var parts := InlineParts(head);
    var (l, behind) := parts;
    SkippedDollars(head);
    NoDollarInKey();
    DollarsAppend(SERVICES, l);
    SkippedDollars(l);
    OneDollar(':');
    DollarsAppend([':'], behind);
    SkippedDollars(behind);
    DroppedDollars(SkipSpaces(behind));
    BracketsHaveNone(DropSpaces(SkipSpaces(behind)));
  }

  lemma NoDollarInKey()
    ensures Dollars(SERVICES) == 0
  {
    NoDollars(SERVICES);
  }

  predicate EmptyBrackets(t: string) {
    |t| >= 2 && t[0] == '[' && t[|t| - 1] == ']' && IsBlank(t[1..|t| - 1])
  }

  lemma BracketsHaveNone(t: string)
    requires EmptyBrackets(t)
    ensures Dollars(t) == 0
  {
    var blank := t[1..|t| - 1];
    assert t == ['['] + blank + [']'];
    hide Dollars, IsBlank;
    BlankHasNone(blank);
    OneDollar('[');
    OneDollar(']');
    DollarsAppend(['['] + blank, [']']);
    DollarsAppend(['['], blank);
  }

  /** What stands behind the key, and behind its colon. */
  lemma InlineParts(head: string) returns (parts: (string, string))
    requires InlineEmpty(head, SERVICES)
    ensures SkipBlanks(head) == SERVICES + parts.0 && SkipBlanks(parts.0) == [':'] + parts.1
    ensures EmptyBrackets(DropSpaces(SkipSpaces(parts.1)))
  {
    hide SERVICES, IsBlank, SkipSpaces, DropSpaces;
    var l := SkipBlanks(head);
    var behind := l[|SERVICES|..];
    parts := (behind, SkipBlanks(behind)[1..]);
  }

  lemma {:induction false} JoinHasNone(parts: seq<string>)
    requires forall i :: 0 <= i < |parts| ==> Dollars(parts[i]) == 0
    ensures Dollars(Join(parts, "\n")) == 0
  {
    hide Dollars;
    OneDollar('\n');
    if |parts| > 1 {
      JoinHasNone(parts[1..]);
      DollarsAppend(parts[0], "\n");
      DollarsAppend(parts[0] + "\n", Join(parts[1..], "\n"));
    }
  }

  lemma {:induction false} PartHasNoMoreDollars(parts: seq<string>, i: nat)
    requires i < |parts|
    ensures Dollars(parts[i]) <= Dollars(Join(parts, "\n"))
  {
    hide Dollars;
    if |parts| > 1 {
      DollarsAppend(parts[0], "\n");
      DollarsAppend(parts[0] + "\n", Join(parts[1..], "\n"));
      if i > 0 {
        PartHasNoMoreDollars(parts[1..], i - 1);
      }
    }
  }

  lemma {:induction false} SkippedLinesAreBlank(lines: seq<string>)
    ensures forall i :: 0 <= i < |lines| - |SkipBlankLines(lines)| ==> IsBlank(lines[i])
  {
    hide IsBlank;
    if lines != [] && IsBlank(lines[0]) {
      SkippedLinesAreBlank(lines[1..]);
      assert forall i :: 0 < i < |lines| ==> lines[i] == lines[1..][i - 1];
    }
  }

  lemma MatchedHasNone(head: string, post: seq<string>)
    requires InlineEmpty(head, SERVICES)
    ensures Dollars(Matched(head, post)) == 0
  {
    InlineHasNone(head);
    SkippedLinesAreBlank(post);
    var lines := [head] + post[..|post| - |SkipBlankLines(post)|];
    hide InlineEmpty, SkipBlankLines, Dollars, IsBlank, SERVICES;
    forall i | 0 <= i < |lines|
      ensures Dollars(lines[i]) == 0
    {
      if i > 0 {
        BlankHasNone(lines[i]);
      }
    }
    JoinHasNone(lines);
  }

  /** With an active `$` in the type, the lines of the replacement have less of them than the type. */
  lemma ReplacementLosesDollars(name: string, subtype: string, matched: string)
    requires ValidName(name) && !Inert(subtype) && Dollars(matched) == 0
    ensures var lines := ReplacementLines(SERVICES, EntryLines(name, subtype), matched);
      lines != [] && forall l :: l in lines ==> '\n' !in l && Dollars(l) < Dollars(subtype)
  {
    var template := TextOf([SERVICES + ":"] + EntryLines(name, subtype));
    var text := Expand(template, matched);
    var parts := Split(text, '\n');
    hide Dollars, Inert, TextOf, Expand, Split, EntryLines, SERVICES, ValidName;
    TemplateIsInert(name, subtype);
    ExpandLosesDollars(template, matched);
    TemplateDollars(name, subtype);
    JoinOfSplit(text, '\n');
    forall i | 0 <= i < |parts|
      ensures Dollars(parts[i]) < Dollars(subtype)
    {
      PartHasNoMoreDollars(parts, i);
    }
    ExpandedHasLines(name, subtype, matched);
  }

  lemma TemplateDollars(name: string, subtype: string)
    requires ValidName(name) && !Inert(subtype)
    ensures Dollars(TextOf([SERVICES + ":"] + EntryLines(name, subtype))) == Dollars(subtype)
  {
    assert subtype != "";
    hide Dollars, Inert, TextOf, EntryLines, SERVICES, ValidName, BeforeType;
    Template(name, subtype);
    BeforeTypeIsPlain(name);
    NoDollars(BeforeType(name));
    DollarsAppend(BeforeType(name), subtype + "\n");
    DollarsAppend(subtype, "\n");
    OneDollar('\n');
  }

  lemma ExpandedHasLines(name: string, subtype: string, matched: string)
    requires ValidName(name) && !Inert(subtype)
    ensures |Split(Expand(TextOf([SERVICES + ":"] + EntryLines(name, subtype)), matched), '\n')| > 1
  {
    var front := BeforeType(name);
    assert '\n' in front by {
      assert front[|SERVICES| + 1] == '\n';
    }
    assert subtype != "";
    hide Inert, TextOf, EntryLines, SERVICES, ValidName, BeforeType, Expand;
    Template(name, subtype);
    BeforeTypeIsPlain(name);
    ExpandAfterPlain(front, subtype + "\n", matched);
    var text := front + Expand(subtype + "\n", matched);
    assert '\n' in text;
    JoinOfSplit(text, '\n');
    JoinOfOne(Split(text, '\n'));
    hide Split;
  }

  lemma JoinOfOne(parts: seq<string>)
    ensures |parts| == 1 ==> Join(parts, "\n") == parts[0]
  {
  }

  // ----- Where a reader looks in the expanded text -----

  lemma {:induction false} LastBlockKeyHolds(lines: seq<string>)
    ensures LastBlockKey(lines, SERVICES).Some? ==> BlockKey(lines[LastBlockKey(lines, SERVICES).value], SERVICES)
  {
    hide BlockKey;
    if lines != [] {
      LastBlockKeyHolds(lines[..|lines| - 1]);
    }
  }

  lemma {:induction false} BlockEndsBefore(lines: seq<string>, i: nat, end: nat)
    requires i <= end < |lines| && !InBlock(lines[end])
    ensures BlockEnd(lines, i) <= end
    decreases end - i
  {
    if InBlock(lines[i]) {
      BlockEndsBefore(lines, i + 1, end);
    }
  }

  /** Only lines of the replacement can open a block. */
  lemma OnlyNewBlockKeys(lines: seq<string>, pre: seq<string>, added: seq<string>, rest: seq<string>)
    requires Plain(pre) && Plain(rest) && lines == pre + (added + if rest == [] then [] else [[]] + rest)
    ensures forall k :: 0 <= k < |pre| || |pre| + |added| <= k < |lines| ==> !BlockKey(lines[k], SERVICES)
  {
    EmptyLineIsOther([]);
    hide BlockKey, InlineEmpty, SERVICES;
    var n := |pre| + |added|;
    forall k | 0 <= k < |pre| || n <= k < |lines|
      ensures !BlockKey(lines[k], SERVICES)
    {
      if k < |pre| {
        assert NotKey(pre[k]) && lines[k] == pre[k];
      } else if k == n {
        assert lines[k] == [];
      } else {
        assert NotKey(rest[k - n - 1]) && lines[k] == rest[k - n - 1];
      }
    }
  }

  /** The block that is read lies within the replacement, but for an empty line behind it. */
  lemma ReadLinesAreNew(lines: seq<string>, pre: seq<string>, added: seq<string>, rest: seq<string>, i: nat)
    requires Plain(pre) && Plain(rest) && (rest != [] ==> !InBlock(rest[0]))
    requires lines == pre + (added + if rest == [] then [] else [[]] + rest)
    requires LastBlockKey(lines, SERVICES) == Some(i)
    ensures forall l :: l in lines[i + 1..BlockEnd(lines, i + 1)] ==> l in added || l == []
  {
    LastBlockKeyHolds(lines);
    OnlyNewBlockKeys(lines, pre, added, rest);
    hide LastBlockKey, BlockKey, InlineEmpty, InBlock, SERVICES, Plain;
    assert |pre| <= i < |pre| + |added|;
    var end := BlockEnd(lines, i + 1);
    if rest != [] {
      assert lines[|pre| + |added| + 1] == rest[0];
      BlockEndsBefore(lines, i + 1, |pre| + |added| + 1);
    }
    hide BlockEnd;
    forall l | l in lines[i + 1..end]
      ensures l in added || l == []
    {
      var k :| i + 1 <= k < end && l == lines[k];
      if k < |pre| + |added| {
        assert l == added[k - |pre|];
      } else {
        assert k == |pre| + |added| && l == [];
      }
    }
  }

  /** What a type with an active `$` becomes in a `services: []` is never the type. */
  lemma ActiveTypeIsNotRead(d: Doc, name: string, subtype: string)
    requires WellFormed(d) && d.EmptyList? && ValidName(name) && !Inert(subtype)
    ensures var services := ServicesIn(TextOf(AddToLines(d.Lines(), SERVICES, EntryLines(name, subtype))));
      forall k :: 0 <= k < |services| ==> services[k].subtype != subtype
  {
    hide *;
    var (entry, matched) := (EntryLines(name, subtype), Matched(d.head, d.post));
    var added := ReplacementLines(SERVICES, entry, matched);
    var lines := d.pre + (added + ExpandedTail(d.post));
    EmptyHeadIsInline(d);
    NothingIsInert(subtype);
    ExpandedLines(d, entry);
    MatchedHasNone(d.head, d.post);
    ReplacementLosesDollars(name, subtype, matched);
    PlainEnds(d);
    ExpandedTailIs(d.post);
    NewLinesAreSingle(lines, d.pre, added, SkipBlankLines(d.post));
    NonEmptyBehind(d.pre, added, ExpandedTail(d.post));
    LinesOfText(lines);
    TypesHaveFewer(lines, d.pre, added, SkipBlankLines(d.post), TextOf(lines), subtype);
  }

  lemma NonEmptyBehind<T>(a: seq<T>, b: seq<T>, c: seq<T>)
    requires b != []
    ensures a + (b + c) != []
  {
    assert (a + (b + c))[|a|] == b[0];
  }

  lemma NothingIsInert(subtype: string)
    requires !Inert(subtype)
    ensures subtype != ""
  {
  }

  lemma EmptyHeadIsInline(d: Doc)
    requires WellFormed(d) && d.EmptyList?
    ensures InlineEmpty(d.head, SERVICES)
  {
  }

  lemma PlainEnds(d: Doc)
    requires WellFormed(d) && d.EmptyList?
    ensures Plain(d.pre) && Plain(SkipBlankLines(d.post))
    ensures SkipBlankLines(d.post) != [] ==> !InBlock(SkipBlankLines(d.post)[0])
  {
    PlainAtEnd(d.post);
    hide Plain, InBlock, SkipBlankLines;
  }

  lemma NewLinesAreSingle(lines: seq<string>, pre: seq<string>, added: seq<string>, rest: seq<string>)
    requires lines == pre + (added + if rest == [] then [] else [[]] + rest)
    requires Plain(pre) && Plain(rest) && forall l :: l in added ==> '\n' !in l
    ensures forall i :: 0 <= i < |lines| ==> '\n' !in lines[i]
  {
    hide NotKey;
  }

  lemma BlockHasFewer(block: seq<string>, subtype: string)
    requires subtype != "" && forall l :: l in block ==> l == [] || Dollars(l) < Dollars(subtype)
    ensures forall k :: 0 <= k < |Entries(block)| ==> Entries(block)[k].subtype != subtype
  {
    hide Dollars, Classify, Entries, SubtypesBelong;
    TypesAreRead(block);
    EmptyLineIsOther([]);
    forall k | 0 <= k < |Entries(block)|
      ensures Entries(block)[k].subtype != subtype
    {
      if Entries(block)[k].subtype == subtype {
        var line := LineOfType(subtype, block);
        TypeOfLine(line, subtype);
      }
    }
  }

  lemma TypesHaveFewer(lines: seq<string>, pre: seq<string>, added: seq<string>, rest: seq<string>, text: string,
                       subtype: string)
    requires lines == pre + (added + if rest == [] then [] else [[]] + rest) && TerminatedLines(text) == lines
    requires Plain(pre) && Plain(rest) && (rest != [] ==> !InBlock(rest[0])) && subtype != ""
    requires forall l :: l in added ==> Dollars(l) < Dollars(subtype)
    ensures forall k :: 0 <= k < |ServicesIn(text)| ==> ServicesIn(text)[k].subtype != subtype
  {
    hide *;
    var found := LastBlockKey(lines, SERVICES);
    if found.Some? {
      var block := lines[found.value + 1..BlockEnd(lines, found.value + 1)];
      ServicesOfBlock(text, found.value);
      ReadLinesAreNew(lines, pre, added, rest, found.value);
      BlockHasFewer(block, subtype);
    } else {
      NoServices(text);
    }
  }

  lemma NoServices(text: string)
    requires LastBlockKey(TerminatedLines(text), SERVICES).None?
    ensures ServicesIn(text) == []
  {
    hide LastBlockKey;
  }

  // ----- One addition -----

  lemma AddIsPersisted(text: string, d: Doc, name: string, subtype: string)
    requires WellFormed(d) && TerminatedLines(text) == d.Lines()
    ensures Persist(text, name, subtype, false)
         == if !ValidName(name) then Err("invalid service name")
            else if Accepts(d, Add(name, subtype)) then
              Ok(TextOf(AddToLines(d.Lines(), SERVICES, EntryLines(name, subtype))))
            else Err("already registered")
  {
    ListedIsService(d, name);
    hide WellFormed, TerminatedLines, TextOf, AddToLines, EntryLines, Listed, HasEntry, FreeOutside, ValidName,
         Doc.Lines, Doc.Services;
  }

  /** A writable type reads back. */
  lemma WritableIsRead(text: string, d: Doc, name: string, subtype: string)
    requires WellFormed(d) && TerminatedLines(text) == d.Lines()
    requires Accepts(d, Add(name, subtype)) && Writable(d, subtype)
    ensures var (op, r) := (Add(name, subtype), Persist(text, name, subtype, false));
      && r == Ok(TextOf(Edited(d, op).Lines())) && TerminatedLines(r.value) == Edited(d, op).Lines()
      && ServicesIn(r.value) == d.Services() + [Service(name, subtype)]
  {
    var (op, e) := (Add(name, subtype), Edited(d, Add(name, subtype)));
    WritableParts(d, name, subtype);
    hide *;
    AddIsPersisted(text, d, name, subtype);
    AddedLines(d, name, subtype);
    EditedServices(d, op);
    EditedIsWellFormed(d, op);
    SingleLinesOf(e);
    LinesOfText(e.Lines());
    ServicesAreRead(e, TextOf(e.Lines()));
    AddedList(d.Services(), name, subtype);
  }

  lemma WritableParts(d: Doc, name: string, subtype: string)
    requires Accepts(d, Add(name, subtype)) && Writable(d, subtype)
    ensures ValidName(name) && '\n' !in subtype && (d.EmptyList? ==> Inert(subtype)) && Clean(Add(name, subtype))
  {
  }

  lemma AddedList(services: seq<Service>, name: string, subtype: string)
    ensures EditedList(services, Add(name, subtype)) == services + [Service(name, subtype)]
  {
  }

  /** A type that is not writable is never read from where it was written. */
  lemma UnwritableIsNotRead(text: string, d: Doc, name: string, subtype: string)
    requires WellFormed(d) && TerminatedLines(text) == d.Lines()
    requires Accepts(d, Add(name, subtype)) && !Writable(d, subtype)
    ensures Persist(text, name, subtype, false).Ok?
    ensures var services := ServicesIn(Persist(text, name, subtype, false).value);
      forall k :: 0 <= k < |services| ==> services[k].subtype != subtype
  {
    AddIsPersisted(text, d, name, subtype);
    hide WellFormed, TerminatedLines, Persist, TextOf, AddToLines, EntryLines, Fits, Inert, HasEntry, FreeOutside,
         ValidName, Doc.Lines, Doc.Services, ServicesIn, SERVICES;
    if !Fits(subtype) {
      ReadTypesFit(Persist(text, name, subtype, false).value, subtype);
    } else {
      ActiveTypeIsNotRead(d, name, subtype);
    }
  }

  /**
   An addition is refused exactly for an invalid name, one that has an entry and
   one that another list holds.  Otherwise the new service reads back, with the
   others as they were, exactly if its type is writable: without a newline, without
   white space around it and, in a `services: []`, without an active `$`.
   */
  lemma AddIsExact(text: string, d: Doc, name: string, subtype: string)
    requires WellFormed(d) && TerminatedLines(text) == d.Lines()
    ensures var (op, r) := (Add(name, subtype), Persist(text, name, subtype, false));
      && (r.Ok? <==> Accepts(d, op))
      && (r.Ok? ==> (ServicesIn(r.value) == d.Services() + [Service(name, subtype)] <==> Writable(d, subtype)))
      && (r.Ok? && Writable(d, subtype) ==> TerminatedLines(r.value) == Edited(d, op).Lines())
  {
    AddIsPersisted(text, d, name, subtype);
    hide WellFormed, TerminatedLines, Persist, Writable, ServicesIn, Accepts, Edited, Doc.Lines, Doc.Services, TextOf,
         AddToLines, EntryLines, ValidName, SERVICES;
    if Accepts(d, Add(name, subtype)) {
      if Writable(d, subtype) {
        WritableIsRead(text, d, name, subtype);
      } else {
        UnwritableIsNotRead(text, d, name, subtype);
        var services := d.Services() + [Service(name, subtype)];
        assert services[|d.Services()|].subtype == subtype;
      }
    }
  }

  // ----- Two types that are not writable -----

  lemma {:induction false} NewlineInLine(a: seq<string>, x: string, y: string, b: seq<string>)
    ensures TextOf(a + [x + "\n" + y] + b) == TextOf(a + [x, y] + b)
  {
    if a == [] {
      var (one, two) := ([x + "\n" + y] + b + [[]], [x, y] + b + [[]]);
      assert [] + [x + "\n" + y] + b == [x + "\n" + y] + b && [] + [x, y] + b == [x, y] + b;
      assert one[1..] == b + [[]] && two[1..] == [y] + b + [[]] && two[1..][1..] == b + [[]];
      assert Join(two, "\n") == x + "\n" + (y + "\n" + Join(b + [[]], "\n"));
      assert Join(one, "\n") == x + "\n" + y + "\n" + Join(b + [[]], "\n");
    } else {
      NewlineInLine(a[1..], x, y, b);
      var (one, two) := (a + [x + "\n" + y] + b + [[]], a + [x, y] + b + [[]]);
      assert one[1..] == a[1..] + [x + "\n" + y] + b + [[]];
      assert two[1..] == a[1..] + [x, y] + b + [[]];
    }
  }

  lemma EntryWithNewline(name: string, subtype: string, other: string)
    requires subtype != ""
    ensures var line := "    subtype: " + subtype;
      && EntryLines(name, subtype + "\n  - " + other) == ["  - name: " + name] + [line + "\n" + ("  - " + other)]
      && EntryLines(name, subtype) + EntryLines(other, "") == ["  - name: " + name] + [line, "  - " + other]
  {
    assert "    subtype: " + (subtype + "\n  - " + other) == "    subtype: " + subtype + "\n" + ("  - " + other);
  }

  lemma RegroupAround<T>(a: seq<T>, b: seq<T>, i: seq<T>, l: seq<T>, p: seq<T>)
    ensures a + (b + (i + l)) + p == (a + b + i) + l + p
  {
  }

  lemma TextWithNewline(front: seq<string>, block: seq<string>, post: seq<string>,
                        name: string, subtype: string, other: string)
    requires subtype != ""
    ensures TextOf(front + (block + EntryLines(name, subtype + "\n  - " + other)) + post)
         == TextOf(front + (block + EntryLines(name, subtype) + EntryLines(other, "")) + post)
  {
    hide *;
    var (item, line, next) := (["  - name: " + name], "    subtype: " + subtype, "  - " + other);
    EntryWithNewline(name, subtype, other);
    Regroup(block, EntryLines(name, subtype), EntryLines(other, ""));
    RegroupAround(front, block, item, [line + "\n" + next], post);
    RegroupAround(front, block, item, [line, next], post);
    NewlineInLine(front + block + item, line, next, post);
  }

  lemma TwoAdded(d: Doc, name: string, subtype: string, other: string) returns (e: Doc)
    requires WellFormed(d) && d.BlockList? && Fits(subtype) && other != name
    requires Accepts(d, Add(name, subtype)) && Accepts(d, Add(other, ""))
    ensures WellFormed(e) && e.Services() == d.Services() + [Service(name, subtype), Service(other, "")]
    ensures e.Lines()
         == d.pre + [d.head] + (d.block + EntryLines(name, subtype) + EntryLines(other, "")) + d.post
  {
    var (first, second) := (Add(name, subtype), Add(other, ""));
    hide *;
    NothingFits(other);
    FitsIsClean(name, subtype);
    EditedServices(d, first);
    EditedIsWellFormed(d, first);
    AcceptsOther(d, name, subtype, other);
    var f := Edited(d, first);
    e := Edited(f, second);
    EditedServices(f, second);
    EditedIsWellFormed(f, second);
    AddedList(d.Services(), name, subtype);
    AddedList(f.Services(), other, "");
    Regroup(d.Services(), [Service(name, subtype)], [Service(other, "")]);
    assert [Service(name, subtype)] + [Service(other, "")] == [Service(name, subtype), Service(other, "")];
    EditedBlock(d, name, subtype);
    EditedBlock(f, other, "");
    BlockDoc(e);
  }

  lemma NothingFits(name: string)
    ensures Clean(Add(name, ""))
  {
    TrimOfNothing();
  }

  lemma FitsIsClean(name: string, subtype: string)
    requires Fits(subtype)
    ensures Clean(Add(name, subtype))
  {
  }

  lemma EditedBlock(d: Doc, name: string, subtype: string)
    requires d.BlockList?
    ensures Edited(d, Add(name, subtype)) == d.(block := d.block + EntryLines(name, subtype))
  {
    hide EntryLines;
  }

  lemma AcceptsOther(d: Doc, name: string, subtype: string, other: string)
    requires WellFormed(d) && d.BlockList? && Fits(subtype) && other != name
    requires Accepts(d, Add(name, subtype)) && Accepts(d, Add(other, ""))
    ensures Accepts(Edited(d, Add(name, subtype)), Add(other, ""))
  {
    var op := Add(name, subtype);
    EditedServices(d, op);
    EditedKeepsOutside(d, op);
    assert !HasEntry(d.Services() + [Service(name, subtype)], other);
    hide WellFormed, FreeOutside, ValidName, Fits, Doc.Services, Edited;
  }

  /** A newline in the type can add a second service. */
  lemma NewlineAddsService(text: string, d: Doc, name: string, subtype: string, other: string)
    requires WellFormed(d) && d.BlockList? && TerminatedLines(text) == d.Lines()
    requires Fits(subtype) && subtype != "" && other != name
    requires Accepts(d, Add(name, subtype)) && Accepts(d, Add(other, ""))
    ensures var r := Persist(text, name, subtype + "\n  - " + other, false);
      r.Ok? && ServicesIn(r.value) == d.Services() + [Service(name, subtype), Service(other, "")]
  {
    var broken := subtype + "\n  - " + other;
    assert Accepts(d, Add(name, broken));
    hide *;
    AddIsPersisted(text, d, name, broken);
    AddedToBlock(d, EntryLines(name, broken));
    TextWithNewline(d.pre + [d.head], d.block, d.post, name, subtype, other);
    var e := TwoAdded(d, name, subtype, other);
    SingleLinesOf(e);
    LinesOfText(e.Lines());
    ServicesAreRead(e, TextOf(e.Lines()));
  }

  lemma ReferenceExpands(matched: string)
    ensures Expand(['$', 'x'] + "\n", matched) == "\n"
  {
    ReferenceGoes("\n", matched);
    assert Expand("\n", matched) == "\n" + Expand([], matched);
  }

  lemma ReferenceReplacement(name: string, matched: string)
    requires ValidName(name)
    ensures ReplacementLines(SERVICES, EntryLines(name, ['$', 'x']), matched)
         == [SERVICES + ":"] + ["  - name: " + name, "    subtype: " + ""]
  {
    hide *;
    var (head, item, line) := (SERVICES + ":", "  - name: " + name, "    subtype: " + "");
    var lines := [head, item, line];
    UntypedLines(name);
    Template(name, ['$', 'x']);
    BeforeTypeIsPlain(name);
    ExpandAfterPlain(BeforeType(name), ['$', 'x'] + "\n", matched);
    ReferenceExpands(matched);
    TextOfThree(head, item, line);
    Pieces(SERVICES, name, "");
    BeforeTypeIs(name);
    LinesOfText(lines);
    assert "" + "\n" == "\n";
    ReplacementOf(EntryLines(name, ['$', 'x']), matched, lines);
    assert lines == [head] + [item, line];
  }

  lemma UntypedLines(name: string)
    requires ValidName(name)
    ensures '\n' !in SERVICES + ":" && '\n' !in "  - name: " + name && '\n' !in "    subtype: " + ""
  {
    NameIsOneLine(name);
    WrittenHead();
    hide SERVICES, ValidName;
  }

  lemma ReplacementOf(entry: seq<string>, matched: string, lines: seq<string>)
    requires Split(Expand(TextOf([SERVICES + ":"] + entry), matched), '\n') == lines + [[]]
    ensures ReplacementLines(SERVICES, entry, matched) == lines
  {
    hide Split, Expand, TextOf;
    assert (lines + [[]])[..|lines|] == lines;
  }

  /** A reference as the type of the first service of a `services: []` leaves it without one. */
  lemma ReferenceTypeVanishes(text: string, d: Doc, name: string)
    requires WellFormed(d) && d.EmptyList? && TerminatedLines(text) == d.Lines()
    requires Accepts(d, Add(name, ['$', 'x']))
    ensures var r := Persist(text, name, ['$', 'x'], false);
      r.Ok? && ServicesIn(r.value) == [Service(name, "")]
  {
    var entry := ["  - name: " + name, "    subtype: " + ""];
    var rest := SkipBlankLines(d.post);
    var e := BlockList(d.pre, SERVICES + ":", if rest == [] then entry else entry + [[]], rest);
    assert ValidName(name);
    hide *;
    AddIsPersisted(text, d, name, ['$', 'x']);
    ExpandedLines(d, EntryLines(name, ['$', 'x']));
    ReferenceReplacement(name, Matched(d.head, d.post));
    UntypedDoc(d, e, name);
    SingleLinesOf(e);
    LinesOfText(e.Lines());
    ServicesAreRead(e, TextOf(e.Lines()));
  }

  lemma UntypedDoc(d: Doc, e: Doc, name: string)
    requires WellFormed(d) && d.EmptyList? && ValidName(name)
    requires var (entry, rest) := (["  - name: " + name, "    subtype: " + ""], SkipBlankLines(d.post));
      e == BlockList(d.pre, SERVICES + ":", if rest == [] then entry else entry + [[]], rest)
    ensures WellFormed(e) && e.Services() == [Service(name, "")]
    ensures e.Lines()
         == d.pre + ([SERVICES + ":"] + ["  - name: " + name, "    subtype: " + ""] + ExpandedTail(d.post))
  {
    hide *;
    var entry := ["  - name: " + name, "    subtype: " + ""];
    UntypedEntry(entry, name);
    UntypedBlock(entry, name);
    PlainEnds(d);
    WrittenHead();
    ExpandedTailIs(d.post);
    BlockIsWellFormed(e);
    BlockDoc(e);
    LinesAfterHead(d.pre, [SERVICES + ":"], entry, SkipBlankLines(d.post));
  }

  lemma BlockDoc(e: Doc)
    requires e.BlockList?
    ensures e.Lines() == e.pre + [e.head] + e.block + e.post && e.Services() == Entries(e.block)
    ensures e.After() == e.post
  {
    hide Entries;
  }

  lemma LinesAfterHead(pre: seq<string>, head: seq<string>, entry: seq<string>, rest: seq<string>)
    ensures pre + head + (if rest == [] then entry else entry + [[]]) + rest
         == pre + (head + entry + if rest == [] then [] else [[]] + rest)
  {
  }

  lemma UntypedEntry(entry: seq<string>, name: string)
    requires ValidName(name) && entry == ["  - name: " + name, "    subtype: " + ""]
    ensures Entries(entry) == [Service(name, "")] && SubtypesBelong(entry)
  {
    TrimOfNothing();
    NothingIsRead();
    hide *;
    ObjectEntry(name);
    SubtypeLine("");
    ObjectIsRead([], "  - name: " + name, "    subtype: " + "", name, TrimSpace(""));
    assert [] + entry == entry && [] + [Service(name, "")] == [Service(name, "")];
  }

  lemma UntypedBlock(entry: seq<string>, name: string)
    requires ValidName(name) && entry == ["  - name: " + name, "    subtype: " + ""]
    requires Entries(entry) == [Service(name, "")] && SubtypesBelong(entry)
    ensures BlockFits(entry) && BlockFits(entry + [[]])
    ensures Entries(entry + [[]]) == [Service(name, "")] && SubtypesBelong(entry + [[]])
    ensures Distinct([Service(name, "")])
  {
    NameIsOneLine(name);
    hide *;
    EmptyLineIsOther(entry);
    UntypedLinesFit(name);
    assert forall i :: 0 <= i < |entry| ==> EntryLineFits(entry[i]);
    FittingBlock(entry);
    EmptyBlockFits();
    BlockFitsAppend(entry, [[]]);
    OneIsDistinct(Service(name, ""));
  }

  lemma OneIsDistinct(s: Service)
    ensures Distinct([s])
  {
  }

  lemma UntypedLinesFit(name: string)
    requires '\n' !in name
    ensures EntryLineFits("  - name: " + name) && EntryLineFits("    subtype: " + "")
  {
    ItemLineFits("- name: " + name);
    SubtypeLineFits("subtype: ");
    hide EntryLineFits;
    assert "  " + ("- name: " + name) == "  - name: " + name;
    assert "    " + "subtype: " == "    subtype: " + "";
  }
}
