/** Documents around their `services:` list, and how a reader finds it. */
module ServicesDoc {
  import opened Results
  import opened Text
  import opened YamlScalars
  import opened ServicesText
  import opened ServicesList

  const SERVICES := "services"

  /** A document around its `services:` list: without one, with `services: []`, or with a block. */
  datatype Doc =
    | NoList(pre: seq<string>)
    | EmptyList(pre: seq<string>, head: string, post: seq<string>)
    | BlockList(pre: seq<string>, head: string, block: seq<string>, post: seq<string>)
  {
    function Lines(): seq<string> {
      match this
      case NoList(pre) => pre
      case EmptyList(pre, head, post) => pre + [head] + post
      case BlockList(pre, head, block, post) => pre + [head] + block + post
    }

    function Services(): seq<Service> {
      if BlockList? then Entries(block) else []
    }

    function After(): seq<string> {
      if NoList? then [] else post
    }

    /** Line k is one of the block. */
    predicate InList(k: nat) {
      BlockList? && |pre| < k <= |pre| + |block|
    }
  }

  predicate NotKey(line: string) {
    !BlockKey(line, SERVICES) && !InlineEmpty(line, SERVICES)
  }

  ghost predicate Plain(lines: seq<string>) {
    forall i :: 0 <= i < |lines| ==> '\n' !in lines[i] && NotKey(lines[i])
  }

  /** The editors' assumptions: one list, flush left, its block indented and without repeated names. */
  ghost predicate WellFormed(d: Doc) {
    && Plain(d.pre) && Plain(d.After())
    && (d.NoList? ==> d.pre != [])
    && (!d.NoList? ==> '\n' !in d.head && AtColumnZero(d.head, SERVICES))
    && (d.EmptyList? ==> InlineEmpty(d.head, SERVICES) && !BlockKey(d.head, SERVICES)
                         && var rest := SkipBlankLines(d.post); rest != [] ==> !InBlock(rest[0]))
    && (d.BlockList? ==> BlockKey(d.head, SERVICES) && !InlineEmpty(d.head, SERVICES)
                         && Plain(d.block) && (forall i :: 0 <= i < |d.block| ==> InBlock(d.block[i]))
                         && (d.post != [] ==> !InBlock(d.post[0]))
                         && SubtypesBelong(d.block) && Distinct(Entries(d.block)))
  }

  /** The name is no list item outside the block. */
  predicate FreeOutside(d: Doc, name: string) {
    !Listed(d.pre, name) && !Listed(d.After(), name)
  }

  // ----- Finding the list -----

  lemma {:induction false} LastBlockKeyIs(lines: seq<string>, i: nat)
    requires i < |lines| && BlockKey(lines[i], SERVICES)
    requires forall k :: i < k < |lines| ==> !BlockKey(lines[k], SERVICES)
    ensures LastBlockKey(lines, SERVICES) == Some(i)
  {
    hide BlockKey;
    if i < |lines| - 1 {
      LastBlockKeyIs(lines[..|lines| - 1], i);
    }
  }

  lemma {:induction false} NoBlockKey(lines: seq<string>)
    requires forall k :: 0 <= k < |lines| ==> !BlockKey(lines[k], SERVICES)
    ensures LastBlockKey(lines, SERVICES).None?
  {
    hide BlockKey;
    if lines != [] {
      NoBlockKey(lines[..|lines| - 1]);
    }
  }

  lemma {:induction false} BlockEndIs(lines: seq<string>, i: nat, end: nat)
    requires i <= end <= |lines| && forall k :: i <= k < end ==> InBlock(lines[k])
    requires end < |lines| ==> !InBlock(lines[end])
    ensures BlockEnd(lines, i) == end
    decreases end - i
  {
    if i < end {
      BlockEndIs(lines, i + 1, end);
    }
  }

  /** The entries a reader finds under the last `services:` of the text. */
  function ServicesIn(doc: string): seq<Service> {
    var lines := TerminatedLines(doc);
    match LastBlockKey(lines, SERVICES)
    case None => []
    case Some(i) => Entries(lines[i + 1..BlockEnd(lines, i + 1)])
  }

  lemma SingleLinesOf(d: Doc)
    requires WellFormed(d)
    ensures d.Lines() != [] && forall i :: 0 <= i < |d.Lines()| ==> '\n' !in d.Lines()[i]
  {
    hide NotKey, InlineEmpty, BlockKey, AtColumnZero, InBlock, Distinct, SubtypesBelong, Entries;
  }

  /** Where the parts of a block document lie. */
  lemma BlockIsFound(d: Doc)
    requires WellFormed(d) && d.BlockList?
    ensures var n := |d.pre| + 1;
      && LastBlockKey(d.Lines(), SERVICES) == Some(|d.pre|)
      && BlockEnd(d.Lines(), n) == n + |d.block|
      && d.Lines()[n..n + |d.block|] == d.block
      && d.Lines()[..n + |d.block|] == d.pre + [d.head] + d.block
      && d.Lines()[n + |d.block|..] == d.post
  {
    hide InlineEmpty, BlockKey, AtColumnZero, InBlock, Distinct, SubtypesBelong, Entries, LastBlockKey, BlockEnd;
    var (lines, n) := (d.Lines(), |d.pre| + 1);
    assert forall k :: n <= k < n + |d.block| ==> lines[k] == d.block[k - n];
    assert forall k :: n + |d.block| <= k < |lines| ==> lines[k] == d.post[k - n - |d.block|];
    LastBlockKeyIs(lines, |d.pre|);
    BlockEndIs(lines, n, n + |d.block|);
  }

  lemma NoInlineIn(d: Doc)
    requires WellFormed(d) && !d.EmptyList?
    ensures !exists i :: 0 <= i < |d.Lines()| && InlineEmpty(d.Lines()[i], SERVICES)
    ensures d.NoList? ==> LastBlockKey(d.Lines(), SERVICES).None?
  {
    hide InlineEmpty, BlockKey, AtColumnZero, InBlock, Distinct, SubtypesBelong, Entries, LastBlockKey;
    if d.NoList? {
      NoBlockKey(d.pre);
    }
  }

  lemma NoBlockInEmpty(d: Doc)
    requires WellFormed(d) && d.EmptyList?
    ensures LastBlockKey(d.Lines(), SERVICES).None?
  {
    hide InlineEmpty, BlockKey, AtColumnZero, InBlock, LastBlockKey;
    NoBlockKey(d.Lines());
  }

  /** Reading a text whose lines are those of a well-formed document finds its entries. */
  lemma ServicesAreRead(d: Doc, text: string)
    requires WellFormed(d) && TerminatedLines(text) == d.Lines()
    ensures ServicesIn(text) == d.Services()
  {
    hide InlineEmpty, BlockKey, AtColumnZero, InBlock, Distinct, SubtypesBelong, Entries, LastBlockKey, BlockEnd,
         TerminatedLines;
    match d {
      case NoList(_) => NoInlineIn(d);
      case EmptyList(_, _, _) => NoBlockInEmpty(d);
      case BlockList(_, _, _, _) => BlockIsFound(d);
    }
  }

  // ----- Written entries -----

  predicate Tight(s: string) {
    s != [] && forall i :: 0 <= i < |s| ==> !RegexSpace(s[i]) && !IsSpace(s[i]) && s[i] != '\n' && s[i] != '$'
  }

  lemma NamesAreTight(name: string)
    ensures ValidName(name) ==> Tight(name) && !("name:" <= name)
  {
    assert ValidName(name) && |name| >= 5 ==> IsNameChar(name[4]);
  }

  lemma TightIsTrimmed(s: string)
    requires Tight(s)
    ensures SkipSpaces(s) == s == DropSpaces(s) && TrimSpace(s) == s
    ensures SkipSpaces(" " + s) == s && TrimSpace(" " + s) == s
  {
    hide RegexSpace, IsSpace;
    assert (" " + s)[1..] == s;
    SpaceIsSpace();
    TrimSpaceIdentity(s);
  }

  lemma SpaceIsSpace()
    ensures RegexSpace(' ') && IsSpace(' ')
  {
  }

  lemma SkipOneBlank(s: string)
    ensures SkipBlanks(" " + s) == SkipBlanks(s)
  {
    assert (" " + s)[1..] == s;
  }

  lemma SkipTwoBlanks(s: string)
    requires s != [] && s[0] != ' ' && s[0] != '\t'
    ensures SkipBlanks("  " + s) == s
  {
    SkipOneBlank(s);
    SkipOneBlank(" " + s);
    assert "  " + s == " " + (" " + s);
  }

  /** The body of an item line, when it neither starts nor ends in white space. */
  lemma ItemBody(body: string)
    requires body != [] && !RegexSpace(body[0]) && !RegexSpace(body[|body| - 1])
    ensures Classify("  - " + body) == if "name:" <= body then Named(SkipSpaces(body[5..])) else Scalar(body)
  {
    hide RegexSpace;
    var l := "- " + body;
    SkipTwoBlanks(l);
    SpaceIsSpace();
    assert "  - " + body == "  " + l;
    assert l[1..] == " " + body && (" " + body)[1..] == body;
    assert SkipSpaces(" " + body) == body == DropSpaces(body);
    hide SkipSpaces, DropSpaces, SkipBlanks;
  }

  lemma ScalarEntry(name: string)
    requires ValidName(name)
    ensures Classify("  - " + name) == Scalar(name)
  {
    NamesAreTight(name);
    ItemBody(name);
  }

  lemma ObjectBody(name: string, body: string)
    requires Tight(name) && body == "name: " + name
    ensures body != [] && !RegexSpace(body[0]) && !RegexSpace(body[|body| - 1])
    ensures "name:" <= body && SkipSpaces(body[5..]) == name
  {
    assert body[|body| - 1] == name[|name| - 1] && body[5..] == " " + name;
    TightIsTrimmed(name);
    hide SkipSpaces, TrimSpace, DropSpaces;
  }

  lemma ObjectEntry(name: string)
    requires ValidName(name)
    ensures Classify("  - name: " + name) == Named(name)
  {
    NamesAreTight(name);
    hide *;
    ObjectBody(name, "name: " + name);
    ItemBody("name: " + name);
    assert "  - name: " == "  - " + "name: ";
    Regroup("  - ", "name: ", name);
  }

  lemma SkipFourBlanks(s: string)
    requires s != [] && s[0] != ' ' && s[0] != '\t'
    ensures SkipBlanks("    " + s) == s
  {
    SkipTwoBlanks(s);
    SkipOneBlank("  " + s);
    SkipOneBlank("   " + s);
    hide SkipBlanks;
    assert "   " + s == " " + ("  " + s) && "    " + s == " " + ("   " + s);
  }

  lemma TrimAfterBlank(s: string)
    ensures TrimSpace(" " + s) == TrimSpace(s)
  {
    SpaceIsSpace();
    assert (" " + s)[1..] == s;
  }

  /** The line of a type continues an item and holds the type without the white space around it. */
  lemma SubtypeLine(subtype: string)
    ensures Classify("    subtype: " + subtype) == Continuation(Some(TrimSpace(subtype)))
  {
    TrimAfterBlank(subtype);
    hide TrimSpace;
    var l := "subtype: " + subtype;
    SkipFourBlanks(l);
    hide SkipBlanks;
    assert "    " + l == "    subtype: " + subtype;
    assert l[8..] == " " + subtype && l[0] == 's';
  }
}
