/** The editors of the `services:` list in agent.yml, line by line: config.go. */
module ServicesText {
  import opened Results
  import opened Text
  import opened YamlScalars
  import opened YamlExpand

  // ----- The patterns -----

  /** What \s matches within a line. */
  predicate RegexSpace(c: char) {
    c == ' ' || c == '\t' || c == '\r' || c as int == 12
  }

  function SkipSpaces(s: string): (r: string)
    ensures |r| <= |s|
  {
    if s != [] && RegexSpace(s[0]) then SkipSpaces(s[1..]) else s
  }

  function DropSpaces(s: string): (r: string)
    ensures r <= s
  {
    if s != [] && RegexSpace(s[|s| - 1]) then DropSpaces(s[..|s| - 1]) else s
  }

  predicate IsBlank(line: string) {
    SkipSpaces(line) == []
  }

  /** The text after `key:`, with any indentation. */
  function AfterColon(line: string, key: string): Option<string> {
    var l := SkipBlanks(line);
    if AtColumnZero(l, key) then Some(SkipBlanks(l[|key|..])[1..]) else None
  }

  /** `key:` alone on its line. */
  predicate BlockKey(line: string, key: string) {
    var rest := AfterColon(line, key);
    rest.Some? && IsBlank(rest.value)
  }

  /** `key: []`. */
  predicate InlineEmpty(line: string, key: string) {
    var rest := AfterColon(line, key);
    rest.Some? && var t := DropSpaces(SkipSpaces(rest.value));
                  |t| >= 2 && t[0] == '[' && t[|t| - 1] == ']' && IsBlank(t[1..|t| - 1])
  }

  /** What a line is to the editors: a list item in object or scalar form, a line that continues an item, or neither. */
  datatype LineKind = Named(name: string) | Scalar(name: string) | Continuation(subtype: Option<string>) | Other

  function Classify(line: string): LineKind {
    var l := SkipBlanks(line);
    if l != [] && l[0] == '-' then
      var body := DropSpaces(SkipSpaces(l[1..]));
      if "name:" <= body then Named(SkipSpaces(body[5..])) else Scalar(body)
    else if l != [] && l != line && !RegexSpace(l[0]) then
      Continuation(if "subtype:" <= l then Some(TrimSpace(l[8..])) else None)
    else Other
  }

  predicate Continues(line: string) {
    Classify(line).Continuation?
  }

  predicate Registers(line: string, item: string) {
    Classify(line) == Named(item) || Classify(line) == Scalar(item)
  }

  predicate Listed(lines: seq<string>, item: string) {
    exists i :: 0 <= i < |lines| && Registers(lines[i], item)
  }

  // ----- The document -----

  /** The lines of a document whose last line is ended, if need be. */
  function TerminatedLines(doc: string): (r: seq<string>)
    ensures forall i :: 0 <= i < |r| ==> '\n' !in r[i]
  {
    var parts := Split(if EndsInNewline(doc) then doc else doc + "\n", '\n');
    parts[..|parts| - 1]
  }

  function TextOf(lines: seq<string>): string {
    Join(lines + [[]], "\n")
  }

  lemma LinesOfText(lines: seq<string>)
    requires forall i :: 0 <= i < |lines| ==> '\n' !in lines[i]
    ensures Split(TextOf(lines), '\n') == lines + [[]]
    ensures lines != [] ==> TerminatedLines(TextOf(lines)) == lines && EndsInNewline(TextOf(lines))
  {
    SplitOfJoin(lines + [[]], '\n');
    LastPieceAfterNewline(TextOf(lines));
    hide Split, Join;
    assert (lines + [[]])[..|lines|] == lines;
  }

  lemma EndingJoin(lines: seq<string>)
    requires lines != []
    ensures Join(lines, "\n") + "\n" == TextOf(lines)
  {
    JoinAppend(lines, [[]], "\n");
  }

  // ----- Adding -----

  function EntryLines(item: string, subtype: string): seq<string> {
    if subtype != "" then ["  - name: " + item, "    subtype: " + subtype] else ["  - " + item]
  }

  function SkipBlankLines(lines: seq<string>): (r: seq<string>)
    ensures |r| <= |lines| && r == lines[|lines| - |r|..]
  {
    if lines != [] && IsBlank(lines[0]) then SkipBlankLines(lines[1..]) else lines
  }

  /** The lines a replacement text turns into, up to its last newline. */
  function ReplacementLines(key: string, entry: seq<string>, matched: string): seq<string> {
    var parts := Split(Expand(TextOf([key + ":"] + entry), matched), '\n');
    parts[..|parts| - 1]
  }

  /**
   Turns every `key: []` into a block.  The pattern also takes the blank lines
   that follow, up to the newline before the next text.
   */
  function ReplaceInline(lines: seq<string>, key: string, entry: seq<string>): seq<string>
    decreases |lines|
  {
    if lines == [] then []
    else if InlineEmpty(lines[0], key) then
      var rest := SkipBlankLines(lines[1..]);
      var matched := Join(lines[..|lines| - |rest|], "\n");
      ReplacementLines(key, entry, matched) + (if rest == [] then [] else [[]] + ReplaceInline(rest, key, entry))
    else [lines[0]] + ReplaceInline(lines[1..], key, entry)
  }

  /** The last line that opens a block for the key. */
  function LastBlockKey(lines: seq<string>, key: string): (r: Option<nat>)
    ensures r.Some? ==> r.value < |lines|
  {
    if lines == [] then None
    else if BlockKey(lines[|lines| - 1], key) then Some(|lines| - 1)
    else LastBlockKey(lines[..|lines| - 1], key)
  }

  predicate InBlock(line: string) {
    line == "" || line[0] == ' ' || line[0] == '\t'
  }

  /** The first line from i on that is neither empty nor indented. */
  function BlockEnd(lines: seq<string>, i: nat): (r: nat)
    requires i <= |lines|
    ensures i <= r <= |lines|
    decreases |lines| - i
  {
    if i == |lines| || !InBlock(lines[i]) then i else BlockEnd(lines, i + 1)
  }

  function AddToLines(lines: seq<string>, key: string, entry: seq<string>): seq<string> {
    if exists i :: 0 <= i < |lines| && InlineEmpty(lines[i], key) then ReplaceInline(lines, key, entry)
    else
      match LastBlockKey(lines, key)
      case None => lines + [key + ":"] + entry
      case Some(i) =>
        var end := BlockEnd(lines, i + 1);
        lines[..end] + entry + lines[end..]
  }

  /** addYamlListItem. */
  function AddListItem(doc: string, key: string, item: string, subtype: string): Result<string> {
    var lines := TerminatedLines(doc);
    if Listed(lines, item) then Err("already registered")
    else Ok(TextOf(AddToLines(lines, key, EntryLines(item, subtype))))
  }

  /** The loops of addYamlListItem: the last line that opens the block, then the first line past it. */
  method AddYamlListItem(doc: string, key: string, item: string, subtype: string) returns (r: Result<string>)
    ensures r == AddListItem(doc, key, item, subtype)
  {
    hide TextOf, TerminatedLines, BlockKey, InlineEmpty, ReplaceInline, EntryLines, Listed, InBlock;
    var lines := TerminatedLines(doc);
    var entry := EntryLines(item, subtype);
    if Listed(lines, item) {
      return Err("already registered");
    }
    if exists i :: 0 <= i < |lines| && InlineEmpty(lines[i], key) {
      return Ok(TextOf(ReplaceInline(lines, key, entry)));
    }
    var blockIndex: Option<nat> := None;
    for i := 0 to |lines|
      invariant blockIndex == LastBlockKey(lines[..i], key)
    {
      assert lines[..i + 1][..i] == lines[..i];
      if BlockKey(lines[i], key) {
        blockIndex := Some(i);
      }
    }
    assert lines[..|lines|] == lines;
    if blockIndex.None? {
      return Ok(TextOf(lines + [key + ":"] + entry));
    }
    var end := blockIndex.value + 1;
    while end < |lines| && InBlock(lines[end])
      invariant blockIndex.value + 1 <= end <= |lines|
      invariant BlockEnd(lines, end) == BlockEnd(lines, blockIndex.value + 1)
    {
      end := end + 1;
    }
    return Ok(TextOf(lines[..end] + entry + lines[end..]));
  }

  // ----- Removing -----

  /** What an object removal has kept so far, and whether it is still inside an item that it drops. */
  datatype Removal = Removal(kept: seq<string>, dropping: bool)

  /** Drops each `- name: item` with the lines that continue it. */
  function RemoveObjects(lines: seq<string>, item: string): Removal {
    if lines == [] then Removal([], false)
    else
      var (before, line) := (RemoveObjects(lines[..|lines| - 1], item), lines[|lines| - 1]);
      if Classify(line) == Named(item) then Removal(before.kept, true)
      else if before.dropping && Continues(line) then before
      else Removal(before.kept + [line], false)
  }

  /** Drops each `- item`. */
  function RemoveScalars(lines: seq<string>, item: string): seq<string> {
    if lines == [] then []
    else
      var (before, line) := (RemoveScalars(lines[..|lines| - 1], item), lines[|lines| - 1]);
      if Classify(line) == Scalar(item) then before else before + [line]
  }

  predicate HasKind(lines: seq<string>, kind: LineKind) {
    exists i :: 0 <= i < |lines| && Classify(lines[i]) == kind
  }

  /** removeYamlListItem; a last line without a newline is only ever matched in scalar form. */
  function RemoveListItem(doc: string, item: string): Result<string> {
    var parts := Split(doc, '\n');
    var n := |parts| - 1;
    if HasKind(parts[..n], Named(item)) then Ok(Join(RemoveObjects(parts[..n], item).kept + [parts[n]], "\n"))
    else if HasKind(parts[..n], Scalar(item)) then Ok(Join(RemoveScalars(parts[..n], item) + [parts[n]], "\n"))
    else if Classify(parts[n]) == Scalar(item) then Ok(Join(parts[..n] + [[]], "\n"))
    else Err("is not registered")
  }

  predicate IsNameChar(c: char) {
    IsWordChar(c) || c == '.' || c == '@' || c == '+' || c == '-'
  }

  /** serviceNamePattern. */
  predicate ValidName(name: string) {
    1 <= |name| <= 128 && forall i :: 0 <= i < |name| ==> IsNameChar(name[i])
  }

  /** The edit PersistService makes, or its refusal. */
  function Persist(doc: string, name: string, subtype: string, remove: bool): Result<string> {
    if !ValidName(name) then Err("invalid service name")
    else if remove then RemoveListItem(doc, name)
    else AddListItem(doc, "services", name, subtype)
  }

  /** The part of the configuration manager that edits the list on disk. */
  class ServiceConfig {
    var disk: string
    /** The text that the configuration in memory was loaded from. */
    var loaded: string

    constructor (doc: string)
      ensures disk == loaded == doc
    {
      disk, loaded := doc, doc;
    }

    /** Refused edits and a failed read or write leave the file alone; a chmod or load may fail after the write. */
    method PersistService(name: string, subtype: string, remove: bool,
                          readOk: bool, writeOk: bool, chmodOk: bool, loadOk: bool) returns (ok: bool)
      modifies this
      ensures var r := Persist(old(disk), name, subtype, remove);
        && (ok <==> readOk && r.Ok? && writeOk && chmodOk && loadOk)
        && disk == (if readOk && r.Ok? && writeOk then r.value else old(disk))
        && loaded == if ok then disk else old(loaded)
    {
      hide ValidName, RemoveListItem, AddListItem;
      if !ValidName(name) || !readOk {
        return false;
      }
      var out;
      if remove {
        out := RemoveListItem(disk, name);
      } else {
        out := AddYamlListItem(disk, "services", name, subtype);
      }
      if out.Err? || !writeOk {
        return false;
      }
      disk := out.value;
      if !chmodOk || !loadOk {
        return false;
      }
      loaded := disk;
      return true;
    }
  }
}
