/** The managed block of the hosts file: hosts_override.go. */
module HostsOverride {
  import opened Results
  import opened Text

  const BLOCK_BEGIN := "# BEGIN" + " theta-agent-local-discovery" + " (managed, do not edit by hand)"
  const BLOCK_END := "# END" + " theta-agent-local-discovery"

  datatype Entry = Entry(ip: string, host: string) {
    function Line(): string {
      ip + "\t" + host
    }
  }

  predicate ValidEol(eol: string) {
    eol == "\n" || eol == "\r\n"
  }

  function DropCR(line: string): (r: string)
    ensures r <= line
  {
    if line != [] && line[|line| - 1] == '\r' then line[..|line| - 1] else line
  }

  function DropCRs(lines: seq<string>): (r: seq<string>)
    ensures |r| == |lines| && forall i :: 0 <= i < |r| ==> r[i] == DropCR(lines[i])
  {
    seq(|lines|, i requires 0 <= i < |lines| => DropCR(lines[i]))
  }

  /** The lines a bufio.Scanner finds: one carriage return is dropped from each, and no empty line ends the text. */
  function ScanLines(text: string): seq<string> {
    var parts := Split(text, '\n');
    DropCRs(if parts[|parts| - 1] == [] then parts[..|parts| - 1] else parts)
  }

  // ----- Which lines are managed -----

  predicate IsBegin(line: string) {
    TrimSpace(DropCR(line)) == BLOCK_BEGIN
  }

  predicate IsEnd(line: string) {
    TrimSpace(DropCR(line)) == BLOCK_END
  }

  predicate IsMarker(line: string) {
    IsBegin(line) || IsEnd(line)
  }

  /** Line b begins a block that no line before i ends. */
  ghost predicate OpenSince(lines: seq<string>, b: nat, i: nat)
    requires b < i <= |lines|
  {
    IsBegin(lines[b]) && forall k :: b < k < i ==> !IsEnd(lines[k])
  }

  /** Line i comes after a begin marker that no end marker has closed. */
  ghost predicate InBlock(lines: seq<string>, i: nat)
    requires i <= |lines|
  {
    exists b: nat :: b < i && OpenSince(lines, b, i)
  }

  /** The lines outside every block, each without one more carriage return. */
  ghost function Unmanaged(lines: seq<string>): seq<string> {
    if lines == [] then []
    else
      var n := |lines| - 1;
      var before := Unmanaged(lines[..n]);
      if IsMarker(lines[n]) || InBlock(lines, n) then before else before + [DropCR(lines[n])]
  }

  /** The lines inside the blocks. */
  ghost function Managed(lines: seq<string>): seq<string> {
    if lines == [] then []
    else
      var n := |lines| - 1;
      var before := Managed(lines[..n]);
      if !IsMarker(lines[n]) && InBlock(lines, n) then before + [DropCR(lines[n])] else before
  }

  function TrimBlankTail(lines: seq<string>): (r: seq<string>)
    ensures r <= lines
    ensures r != [] ==> TrimSpace(r[|r| - 1]) != ""
  {
    if lines != [] && TrimSpace(lines[|lines| - 1]) == "" then TrimBlankTail(lines[..|lines| - 1]) else lines
  }

  /** What the agent keeps of a hosts file. */
  ghost function Kept(text: string): seq<string> {
    TrimBlankTail(Unmanaged(ScanLines(text)))
  }

  function EntryLines(entries: seq<Entry>): (r: seq<string>)
    ensures |r| == |entries|
  {
    seq(|entries|, i requires 0 <= i < |entries| => entries[i].Line())
  }

  function Block(entries: seq<Entry>): seq<string> {
    if entries == [] then [] else [BLOCK_BEGIN] + EntryLines(entries) + [BLOCK_END]
  }

  function Terminated(lines: seq<string>, eol: string): string {
    if lines == [] then [] else lines[0] + eol + Terminated(lines[1..], eol)
  }

  /** A file always starts with at least one line outside the block. */
  function Body(kept: seq<string>): (r: seq<string>)
    ensures r != []
  {
    if kept == [] then [[]] else kept
  }

  ghost function Applied(text: string, entries: seq<Entry>, eol: string): string {
    Terminated(Body(Kept(text)) + Block(entries), eol)
  }

  class HostsFile {
    var content: Option<string>
    const eol: string

    constructor (content: Option<string>, eol: string)
      ensures this.content == content && this.eol == eol
    {
      this.content := content;
      this.eol := eol;
    }

    function Text(): string
      reads this
    {
      if content.Some? then content.value else ""
    }

    /** Rewrites the file in place with exactly these entries in the managed block, or leaves it alone. */
    method ApplyHostsOverride(entries: seq<Entry>, readable: bool, writable: bool) returns (ok: bool)
      modifies this`content
      ensures ok <==> readable && writable
      ensures content == if ok then Some(Applied(old(Text()), entries, eol)) else old(content)
    {
      if !readable {
        return false;
      }
      var kept := KeepUnmanaged(ScanLines(Text()));
      var out := Rendered(kept, entries, eol);
      if !writable {
        return false;
      }
      content := Some(out);
      return true;
    }
  }

  /** The first half of the rewrite: drop every block, then the blank lines its removal left at the end. */
  method KeepUnmanaged(existing: seq<string>) returns (kept: seq<string>)
    ensures kept == TrimBlankTail(Unmanaged(existing))
  {
    hide *;
    kept := [];
    var inBlock := false;
    NothingRead(existing);
    for i := 0 to |existing|
      invariant kept == Unmanaged(existing[..i])
      invariant inBlock <==> InBlock(existing, i)
    {
      var normalized := DropCR(existing[i]);
      var trimmed := TrimSpace(normalized);
      UnmanagedStep(existing, i);
      MarkersDiffer(existing[i]);
      MarkersAre(existing[i]);
      if trimmed == BLOCK_BEGIN {
        inBlock := true;
      } else if trimmed == BLOCK_END {
        inBlock := false;
      } else if !inBlock {
        kept := kept + [normalized];
      }
    }
    assert existing[..|existing|] == existing;
    kept := DropBlankTail(kept);
  }

  lemma NothingRead(lines: seq<string>)
    ensures Unmanaged(lines[..0]) == [] && !InBlock(lines, 0)
  {
  }

  lemma MarkersAre(line: string)
    ensures IsBegin(line) <==> TrimSpace(DropCR(line)) == BLOCK_BEGIN
    ensures IsEnd(line) <==> TrimSpace(DropCR(line)) == BLOCK_END
    ensures IsMarker(line) <==> IsBegin(line) || IsEnd(line)
  {
  }

  method DropBlankTail(lines: seq<string>) returns (kept: seq<string>)
    ensures kept == TrimBlankTail(lines)
  {
    hide TrimSpace;
    kept := lines;
    while |kept| > 0 && TrimSpace(kept[|kept| - 1]) == ""
      invariant TrimBlankTail(kept) == TrimBlankTail(lines)
    {
      kept := kept[..|kept| - 1];
    }
  }

  /** The second half: the kept lines, then the block, every line ended by eol. */
  method Rendered(kept: seq<string>, entries: seq<Entry>, eol: string) returns (out: string)
    ensures out == Terminated(Body(kept) + Block(entries), eol)
  {
    out := Join(kept, eol) + eol;
    JoinTerminated(kept, eol);
    ghost var head, block := Terminated(Body(kept), eol), Block(entries);
    TerminatedAppend(Body(kept), block, eol);
    TerminatedOfNone(eol);
    if |entries| > 0 {
      TerminatedStep(block, 0, eol);
      assert block[..0] == [];
      assert |block| == |entries| + 2 && block[0] == BLOCK_BEGIN && block[|entries| + 1] == BLOCK_END;
      assert forall i :: 0 <= i < |entries| ==> block[i + 1] == entries[i].Line();
      hide Join, Terminated, Body, Block, EntryLines;
      out := out + (BLOCK_BEGIN + eol);
      for i := 0 to |entries|
        invariant out == head + Terminated(block[..i + 1], eol)
      {
        TerminatedStep(block, i + 1, eol);
        Regroup(head, Terminated(block[..i + 1], eol), entries[i].Line() + eol);
        out := out + (entries[i].Line() + eol);
      }
      TerminatedStep(block, |entries| + 1, eol);
      Regroup(head, Terminated(block[..|entries| + 1], eol), BLOCK_END + eol);
      out := out + (BLOCK_END + eol);
      assert block[..|entries| + 2] == block;
    }
  }

  lemma TerminatedOfNone(eol: string)
    ensures Terminated([], eol) == []
  {
  }

  lemma OpenSinceStep(lines: seq<string>, b: nat, i: nat)
    requires b <= i < |lines|
    ensures b < i ==> (OpenSince(lines, b, i + 1) <==> OpenSince(lines, b, i) && !IsEnd(lines[i]))
    ensures b == i ==> (OpenSince(lines, b, i + 1) <==> IsBegin(lines[i]))
  {
    hide IsBegin, IsEnd;
  }

  lemma InBlockStep(lines: seq<string>, i: nat)
    requires i < |lines|
    ensures InBlock(lines, i + 1) <==> IsBegin(lines[i]) || (InBlock(lines, i) && !IsEnd(lines[i]))
  {
    hide IsBegin, IsEnd, OpenSince;
    OpenSinceStep(lines, i, i);
    MarkersDiffer(lines[i]);
    if IsBegin(lines[i]) {
      assert InBlock(lines, i + 1);
    } else if InBlock(lines, i) && !IsEnd(lines[i]) {
      var b: nat :| b < i && OpenSince(lines, b, i);
      OpenSinceStep(lines, b, i);
      assert InBlock(lines, i + 1);
    } else if InBlock(lines, i + 1) {
      var b: nat :| b < i + 1 && OpenSince(lines, b, i + 1);
      OpenSinceStep(lines, b, i);
      assert false;
    }
  }

  lemma UnmanagedStep(lines: seq<string>, i: nat)
    requires i < |lines|
    ensures InBlock(lines, i + 1) <==> IsBegin(lines[i]) || (InBlock(lines, i) && !IsEnd(lines[i]))
    ensures Unmanaged(lines[..i + 1])
         == if IsMarker(lines[i]) || InBlock(lines, i) then Unmanaged(lines[..i])
            else Unmanaged(lines[..i]) + [DropCR(lines[i])]
    ensures Managed(lines[..i + 1])
         == if !IsMarker(lines[i]) && InBlock(lines, i) then Managed(lines[..i]) + [DropCR(lines[i])]
            else Managed(lines[..i])
  {
    InBlockStep(lines, i);
    hide IsBegin, IsEnd, DropCR;
    var upTo := lines[..i + 1];
    assert upTo[..i] == lines[..i] && upTo[i] == lines[i];
    InBlockOfPrefix(lines, i, upTo);
    hide InBlock, IsMarker;
  }

  lemma MarkersDiffer(line: string)
    ensures !(IsBegin(line) && IsEnd(line))
  {
    hide TrimSpace, DropCR;
    assert |BLOCK_BEGIN| == 66 && |BLOCK_END| == 33;
  }

  lemma InBlockOfPrefix(lines: seq<string>, i: nat, upTo: seq<string>)
    requires i <= |upTo| <= |lines| && upTo == lines[..|upTo|]
    ensures InBlock(upTo, i) <==> InBlock(lines, i)
  {
    hide IsBegin, IsEnd;
    assert forall b: nat :: b < i ==> (OpenSince(upTo, b, i) <==> OpenSince(lines, b, i));
  }

  lemma {:induction false} TerminatedAppend(a: seq<string>, b: seq<string>, eol: string)
    ensures Terminated(a + b, eol) == Terminated(a, eol) + Terminated(b, eol)
  {
    if a == [] {
      assert a + b == b;
    } else {
      assert (a + b)[1..] == a[1..] + b;
      TerminatedAppend(a[1..], b, eol);
    }
  }

  lemma TerminatedStep(lines: seq<string>, i: nat, eol: string)
    requires i < |lines|
    ensures Terminated(lines[..i + 1], eol) == Terminated(lines[..i], eol) + (lines[i] + eol)
  {
    assert lines[..i + 1] == lines[..i] + [lines[i]];
    TerminatedAppend(lines[..i], [lines[i]], eol);
    assert Terminated([lines[i]], eol) == lines[i] + eol;
  }

  lemma {:induction false} JoinTerminated(kept: seq<string>, eol: string)
    ensures Join(kept, eol) + eol == Terminated(Body(kept), eol)
  {
    if |kept| > 1 {
      JoinTerminated(kept[1..], eol);
      assert Join(kept, eol) + eol == kept[0] + eol + (Join(kept[1..], eol) + eol);
    }
  }

  // ----- Reading back what was written -----

  /** A line of the file as the scanner finds it on the next reading. */
  function Rescanned(line: string, eol: string): string {
    if eol == "\n" then DropCR(line) else line
  }

  function RescannedLines(lines: seq<string>, eol: string): (r: seq<string>)
    ensures |r| == |lines| && forall i :: 0 <= i < |r| ==> r[i] == Rescanned(lines[i], eol)
  {
    seq(|lines|, i requires 0 <= i < |lines| => Rescanned(lines[i], eol))
  }

  ghost predicate SingleLines(lines: seq<string>) {
    forall i :: 0 <= i < |lines| ==> '\n' !in lines[i]
  }

  function WithEnding(line: string, eol: string): string {
    if eol == "\n" then line else line + "\r"
  }

  lemma {:induction false} SplitOfTerminated(lines: seq<string>, eol: string)
    requires ValidEol(eol) && SingleLines(lines)
    ensures Split(Terminated(lines, eol), '\n') == WithEndings(lines, eol) + [[]]
  {
    if lines != [] {
      SplitOfTerminated(lines[1..], eol);
      var first := WithEnding(lines[0], eol);
      assert lines[0] + eol == first + ['\n'];
      SplitAtSeparator(first, Terminated(lines[1..], eol), '\n');
      hide Split, WithEnding;
      assert WithEndings(lines, eol) == [first] + WithEndings(lines[1..], eol);
    }
  }

  function WithEndings(lines: seq<string>, eol: string): (r: seq<string>)
    ensures |r| == |lines| && forall i :: 0 <= i < |r| ==> r[i] == WithEnding(lines[i], eol)
  {
    seq(|lines|, i requires 0 <= i < |lines| => WithEnding(lines[i], eol))
  }

  lemma EndingDropped(line: string, eol: string)
    requires ValidEol(eol)
    ensures DropCR(WithEnding(line, eol)) == Rescanned(line, eol)
  {
  }

  lemma ScanOfPieces(text: string, pieces: seq<string>)
    requires Split(text, '\n') == pieces + [[]]
    ensures ScanLines(text) == DropCRs(pieces)
  {
    hide Split, DropCRs;
    assert (pieces + [[]])[..|pieces|] == pieces;
  }

  lemma ScanOfTerminated(lines: seq<string>, eol: string)
    requires ValidEol(eol) && SingleLines(lines)
    ensures ScanLines(Terminated(lines, eol)) == RescannedLines(lines, eol)
  {
    SplitOfTerminated(lines, eol);
    hide *;
    ScanOfPieces(Terminated(lines, eol), WithEndings(lines, eol));
    forall i | 0 <= i < |lines|
      ensures DropCRs(WithEndings(lines, eol))[i] == RescannedLines(lines, eol)[i]
    {
      EndingDropped(lines[i], eol);
    }
  }

  lemma TrimSpaceDropsCR(line: string)
    ensures TrimSpace(DropCR(line)) == TrimSpace(line)
  {
    if DropCR(line) != line {
      TrimSpaceOfBlankTail(DropCR(line), "\r");
      assert line == DropCR(line) + "\r";
    }
  }

  /** Dropping carriage returns never makes or unmakes a marker. */
  lemma MarkersIgnoreCR(line: string, eol: string)
    ensures IsBegin(line) <==> TrimSpace(line) == BLOCK_BEGIN
    ensures IsEnd(line) <==> TrimSpace(line) == BLOCK_END
    ensures TrimSpace(Rescanned(line, eol)) == TrimSpace(line)
    ensures TrimSpace(DropCR(Rescanned(line, eol))) == TrimSpace(line)
  {
    TrimSpaceDropsCR(line);
    TrimSpaceDropsCR(Rescanned(line, eol));
  }

  lemma MarkerLines(eol: string)
    requires ValidEol(eol)
    ensures IsBegin(Rescanned(BLOCK_BEGIN, eol)) && IsEnd(Rescanned(BLOCK_END, eol))
  {
    assert |BLOCK_BEGIN| == 66 && BLOCK_BEGIN[0] == '#' && BLOCK_BEGIN[65] == ')';
    assert |BLOCK_END| == 33 && BLOCK_END[0] == '#' && BLOCK_END[32] == 'y';
    TrimSpaceIdentity(BLOCK_BEGIN);
    TrimSpaceIdentity(BLOCK_END);
    hide TrimSpace, DropCR;
    MarkersIgnoreCR(BLOCK_BEGIN, eol);
    MarkersIgnoreCR(BLOCK_END, eol);
  }

  /** An entry the agent may write: one line that is not itself a marker. */
  ghost predicate ValidEntry(e: Entry) {
    '\n' !in e.Line() && '\r' !in e.Line() && !IsMarker(e.Line())
  }

  ghost predicate ValidEntries(entries: seq<Entry>) {
    forall i :: 0 <= i < |entries| ==> ValidEntry(entries[i])
  }

  lemma {:induction false} PlainLines(lines: seq<string>)
    requires forall i :: 0 <= i < |lines| ==> !IsMarker(lines[i])
    ensures Unmanaged(lines) == DropCRs(lines) && Managed(lines) == [] && !InBlock(lines, |lines|)
  {
    hide IsBegin, IsEnd, DropCR;
    if lines != [] {
      PlainLines(lines[..|lines| - 1]);
      assert !InBlock(lines, |lines| - 1);
    }
  }

  /** What one more line adds to the lines outside and inside the blocks. */
  lemma OneMoreLine(lines: seq<string>, line: string)
    ensures var all := lines + [line];
      && (InBlock(all, |all|) <==> IsBegin(line) || (InBlock(lines, |lines|) && !IsEnd(line)))
      && Unmanaged(all) == Unmanaged(lines) + (if IsMarker(line) || InBlock(lines, |lines|) then [] else [DropCR(line)])
      && Managed(all) == Managed(lines) + (if !IsMarker(line) && InBlock(lines, |lines|) then [DropCR(line)] else [])
  {
    hide *;
    var all := lines + [line];
    assert all[..|lines|] == lines && all[..|all|] == all && all[|lines|] == line;
    UnmanagedStep(all, |lines|);
    InBlockOfPrefix(all, |lines|, lines);
  }

  lemma DropOneMore(lines: seq<string>, line: string)
    ensures DropCRs(lines + [line]) == DropCRs(lines) + [DropCR(line)]
  {
    hide DropCR;
  }

  lemma {:induction false} OpenBlock(plain: seq<string>, begin: string, body: seq<string>)
    requires IsBegin(begin)
    requires forall i :: 0 <= i < |plain| ==> !IsMarker(plain[i])
    requires forall i :: 0 <= i < |body| ==> !IsMarker(body[i])
    ensures Unmanaged(plain + [begin] + body) == DropCRs(plain)
    ensures Managed(plain + [begin] + body) == DropCRs(body) && InBlock(plain + [begin] + body, |plain| + 1 + |body|)
  {
    hide IsBegin, IsEnd, DropCR, InBlock, Unmanaged, Managed, DropCRs;
    if body == [] {
      PlainLines(plain);
      OneMoreLine(plain, begin);
      assert plain + [begin] + body == plain + [begin];
    } else {
      var (front, line) := (body[..|body| - 1], body[|body| - 1]);
      OpenBlock(plain, begin, front);
      OneMoreLine(plain + [begin] + front, line);
      DropOneMore(front, line);
      assert plain + [begin] + body == plain + [begin] + front + [line] && front + [line] == body;
    }
  }

  /** A closed block after lines that are not markers. */
  lemma ClosedBlock(plain: seq<string>, begin: string, body: seq<string>, end: string)
    requires IsBegin(begin) && IsEnd(end)
    requires forall i :: 0 <= i < |plain| ==> !IsMarker(plain[i])
    requires forall i :: 0 <= i < |body| ==> !IsMarker(body[i])
    ensures Unmanaged(plain + [begin] + body + [end]) == DropCRs(plain)
    ensures Managed(plain + [begin] + body + [end]) == DropCRs(body)
  {
    OpenBlock(plain, begin, body);
    hide IsBegin, IsEnd, DropCR, InBlock, Unmanaged, Managed, DropCRs;
    OneMoreLine(plain + [begin] + body, end);
  }

  lemma EntryLineIsKept(e: Entry, eol: string)
    requires ValidEntry(e)
    ensures Rescanned(e.Line(), eol) == e.Line() == DropCR(e.Line())
  {
    assert e.Line()[|e.Line()| - 1] in e.Line();
  }

  lemma EntryLinesAreKept(entries: seq<Entry>, eol: string)
    requires ValidEntries(entries)
    ensures RescannedLines(EntryLines(entries), eol) == EntryLines(entries) == DropCRs(EntryLines(entries))
    ensures forall i :: 0 <= i < |EntryLines(entries)| ==> !IsMarker(EntryLines(entries)[i])
  {
    hide DropCR, IsMarker, Rescanned;
    forall i | 0 <= i < |entries|
      ensures Rescanned(EntryLines(entries)[i], eol) == EntryLines(entries)[i] == DropCR(EntryLines(entries)[i])
    {
      EntryLineIsKept(entries[i], eol);
    }
  }

  lemma RescannedBlock(entries: seq<Entry>, eol: string)
    requires ValidEntries(entries) && entries != []
    ensures RescannedLines(Block(entries), eol)
         == [Rescanned(BLOCK_BEGIN, eol)] + EntryLines(entries) + [Rescanned(BLOCK_END, eol)]
  {
    EntryLinesAreKept(entries, eol);
    hide Rescanned, ValidEntries, DropCRs;
    var lines := EntryLines(entries);
    hide EntryLines;
    var block := [BLOCK_BEGIN] + lines + [BLOCK_END];
    forall i | 0 <= i < |block|
      ensures RescannedLines(block, eol)[i]
           == ([Rescanned(BLOCK_BEGIN, eol)] + lines + [Rescanned(BLOCK_END, eol)])[i]
    {
      if 0 < i <= |lines| {
        assert RescannedLines(lines, eol)[i - 1] == lines[i - 1];
      }
    }
  }

  lemma WrittenBlockIsClosed(plain: seq<string>, entries: seq<Entry>, eol: string)
    requires ValidEol(eol) && ValidEntries(entries) && entries != []
    requires forall i :: 0 <= i < |plain| ==> !IsMarker(plain[i])
    ensures Unmanaged(plain + RescannedLines(Block(entries), eol)) == DropCRs(plain)
    ensures Managed(plain + RescannedLines(Block(entries), eol)) == EntryLines(entries)
  {
    MarkerLines(eol);
    RescannedBlock(entries, eol);
    EntryLinesAreKept(entries, eol);
    var begin, end, lines := [Rescanned(BLOCK_BEGIN, eol)], [Rescanned(BLOCK_END, eol)], EntryLines(entries);
    hide *;
    RegroupFour(plain, begin, lines, end);
    ClosedBlock(plain, begin[0], lines, end[0]);
  }

  lemma BlockIsClosed(plain: seq<string>, entries: seq<Entry>, eol: string)
    requires ValidEol(eol) && ValidEntries(entries)
    requires forall i :: 0 <= i < |plain| ==> !IsMarker(plain[i])
    ensures Unmanaged(plain + RescannedLines(Block(entries), eol)) == DropCRs(plain)
    ensures Managed(plain + RescannedLines(Block(entries), eol)) == EntryLines(entries)
  {
    if entries == [] {
      PlainLines(plain);
      assert plain + RescannedLines(Block(entries), eol) == plain;
    } else {
      WrittenBlockIsClosed(plain, entries, eol);
    }
  }

  // ----- Last write wins -----

  /** What a kept line becomes when the written file is read again. */
  function Reread(line: string, eol: string): (r: string)
    ensures r <= line
  {
    DropCR(Rescanned(line, eol))
  }

  function RereadLines(lines: seq<string>, eol: string): (r: seq<string>)
    ensures |r| == |lines| && forall i :: 0 <= i < |r| ==> r[i] == Reread(lines[i], eol)
  {
    seq(|lines|, i requires 0 <= i < |lines| => Reread(lines[i], eol))
  }

  predicate EndsInCR(line: string) {
    line != [] && line[|line| - 1] == '\r'
  }

  /** No line the agent keeps still ends in a carriage return. */
  ghost predicate NoStrayCR(text: string) {
    forall i :: 0 <= i < |Kept(text)| ==> !EndsInCR(Kept(text)[i])
  }

  lemma {:induction false} UnmanagedLines(lines: seq<string>, i: nat) returns (k: nat)
    requires i < |Unmanaged(lines)|
    ensures k < |lines| && Unmanaged(lines)[i] == DropCR(lines[k]) && !IsMarker(lines[k])
  {
    hide IsBegin, IsEnd, DropCR, InBlock;
    var n := |lines| - 1;
    if i < |Unmanaged(lines[..n])| {
      k := UnmanagedLines(lines[..n], i);
    } else {
      k := n;
    }
  }

  lemma DroppedIsPlain(line: string)
    requires '\n' !in line && !IsMarker(line)
    ensures '\n' !in DropCR(line) && !IsMarker(DropCR(line))
  {
    TrimSpaceDropsCR(line);
    TrimSpaceDropsCR(DropCR(line));
  }

  lemma ScannedLinesAreSingle(text: string)
    ensures SingleLines(ScanLines(text))
  {
  }

  lemma KeptIsPlain(text: string)
    ensures SingleLines(Kept(text))
    ensures forall i :: 0 <= i < |Kept(text)| ==> !IsMarker(Kept(text)[i])
  {
    ScannedLinesAreSingle(text);
    hide ScanLines, IsMarker, DropCR;
    var lines := ScanLines(text);
    forall i | 0 <= i < |Kept(text)| ensures '\n' !in Kept(text)[i] && !IsMarker(Kept(text)[i]) {
      var k := UnmanagedLines(lines, i);
      assert Kept(text)[i] == DropCR(lines[k]);
      DroppedIsPlain(lines[k]);
    }
  }

  /** The file read back: the kept lines, re-read, and exactly the entries that were written. */
  lemma ReadBack(text: string, entries: seq<Entry>, eol: string)
    requires ValidEol(eol) && ValidEntries(entries)
    ensures Kept(Applied(text, entries, eol)) == RereadLines(Kept(text), eol)
    ensures Managed(ScanLines(Applied(text, entries, eol))) == EntryLines(entries)
  {
    KeptIsPlain(text);
    var kept := Kept(text);
    LinesOfApplied(kept, entries, eol);
    hide ScanLines;
    RereadBody(kept, eol);
  }

  lemma RescannedInTwo(a: seq<string>, b: seq<string>, eol: string)
    ensures RescannedLines(a + b, eol) == RescannedLines(a, eol) + RescannedLines(b, eol)
  {
    hide Rescanned;
  }

  lemma RescannedArePlain(lines: seq<string>, eol: string)
    requires forall i :: 0 <= i < |lines| ==> !IsMarker(lines[i])
    ensures forall i :: 0 <= i < |lines| ==> !IsMarker(RescannedLines(lines, eol)[i])
  {
    hide IsMarker, Rescanned;
    forall i | 0 <= i < |lines|
      ensures !IsMarker(RescannedLines(lines, eol)[i])
    {
      RescannedIsPlain(lines[i], eol);
    }
  }

  lemma SingleInTwo(a: seq<string>, b: seq<string>)
    requires SingleLines(a) && SingleLines(b)
    ensures SingleLines(a + b)
  {
  }

  lemma LinesOfApplied(kept: seq<string>, entries: seq<Entry>, eol: string)
    requires ValidEol(eol) && ValidEntries(entries) && SingleLines(kept)
    requires forall i :: 0 <= i < |kept| ==> !IsMarker(kept[i])
    ensures var lines := ScanLines(Terminated(Body(kept) + Block(entries), eol));
      Unmanaged(lines) == DropCRs(RescannedLines(Body(kept), eol)) && Managed(lines) == EntryLines(entries)
  {
    hide *;
    var body, block := Body(kept), Block(entries);
    BodyIsPlain(kept);
    BlockIsSingle(entries);
    SingleInTwo(body, block);
    ScanOfTerminated(body + block, eol);
    RescannedInTwo(body, block, eol);
    RescannedArePlain(body, eol);
    BlockIsClosed(RescannedLines(body, eol), entries, eol);
  }

  /** A file written without entries holds no marker at all. */
  lemma NoMarkersLeft(text: string, eol: string)
    requires ValidEol(eol)
    ensures forall i :: 0 <= i < |ScanLines(Applied(text, [], eol))| ==> !IsMarker(ScanLines(Applied(text, [], eol))[i])
  {
    KeptIsPlain(text);
    var body := Body(Kept(text));
    BodyIsPlain(Kept(text));
    assert body + Block([]) == body;
    hide Body, Kept, IsMarker, SingleLines, ScanLines, Terminated, Block;
    ScanOfTerminated(body, eol);
    RescannedArePlain(body, eol);
  }

  lemma RescannedIsPlain(line: string, eol: string)
    requires !IsMarker(line)
    ensures !IsMarker(Rescanned(line, eol))
  {
    MarkersIgnoreCR(line, eol);
    MarkersIgnoreCR(Rescanned(line, eol), eol);
  }

  lemma BodyIsPlain(kept: seq<string>)
    requires SingleLines(kept) && forall i :: 0 <= i < |kept| ==> !IsMarker(kept[i])
    ensures SingleLines(Body(kept)) && forall i :: 0 <= i < |Body(kept)| ==> !IsMarker(Body(kept)[i])
  {
  }

  lemma MarkersAreSingle()
    ensures '\n' !in BLOCK_BEGIN && '\n' !in BLOCK_END
  {
  }

  lemma EntryLinesAreSingle(entries: seq<Entry>)
    requires ValidEntries(entries)
    ensures SingleLines(EntryLines(entries))
  {
    hide IsMarker;
    forall i | 0 <= i < |entries| ensures '\n' !in EntryLines(entries)[i] {
      assert ValidEntry(entries[i]);
    }
  }

  lemma BlockIsSingle(entries: seq<Entry>)
    requires ValidEntries(entries)
    ensures SingleLines(Block(entries))
  {
    MarkersAreSingle();
    EntryLinesAreSingle(entries);
    var begin, lines, end := BLOCK_BEGIN, EntryLines(entries), BLOCK_END;
    hide EntryLines, ValidEntries, BLOCK_BEGIN, BLOCK_END;
    forall i | 0 <= i < |[begin] + lines + [end]| ensures '\n' !in ([begin] + lines + [end])[i] {
    }
  }

  lemma LastLineStaysFull(kept: seq<string>, eol: string)
    requires kept != [] && TrimSpace(kept[|kept| - 1]) != ""
    ensures TrimBlankTail(RereadLines(kept, eol)) == RereadLines(kept, eol)
  {
    MarkersIgnoreCR(kept[|kept| - 1], eol);
    hide TrimSpace;
  }

  lemma RereadBody(kept: seq<string>, eol: string)
    requires ValidEol(eol) && (kept != [] ==> TrimSpace(kept[|kept| - 1]) != "")
    ensures TrimBlankTail(DropCRs(RescannedLines(Body(kept), eol))) == RereadLines(kept, eol)
  {
    var reread := DropCRs(RescannedLines(Body(kept), eol));
    if kept == [] {
      hide ValidEol;
      assert TrimSpace([]) == [];
      assert reread[0] == [] && reread[..0] == [] == RereadLines(kept, eol);
    } else {
      LastLineStaysFull(kept, eol);
      hide TrimSpace, TrimBlankTail, DropCR, Rescanned;
      assert reread == RereadLines(kept, eol);
    }
  }

  lemma {:induction false} ShorterLinesShorterText(a: seq<string>, b: seq<string>, eol: string)
    requires |a| == |b| && forall i :: 0 <= i < |a| ==> a[i] <= b[i]
    ensures |Terminated(a, eol)| <= |Terminated(b, eol)|
    ensures a != b ==> |Terminated(a, eol)| < |Terminated(b, eol)|
  {
    if a != [] {
      ShorterLinesShorterText(a[1..], b[1..], eol);
      assert a == [a[0]] + a[1..] && b == [b[0]] + b[1..];
      assert |a[0]| == |b[0]| ==> a[0] == b[0] by { assert a[0] == b[0][..|a[0]|]; }
    }
  }

  lemma RereadIsIdentity(text: string, eol: string)
    requires ValidEol(eol)
    ensures RereadLines(Kept(text), eol) == Kept(text) <==> NoStrayCR(text)
  {
    var kept := Kept(text);
    hide Kept;
    assert forall i :: 0 <= i < |kept| ==> (Reread(kept[i], eol) == kept[i] <==> !EndsInCR(kept[i]));
    if RereadLines(kept, eol) == kept {
      assert forall i :: 0 <= i < |kept| ==> RereadLines(kept, eol)[i] == kept[i];
    }
  }

  /** Line by line, each is the beginning of the other. */
  predicate Shrunk(a: seq<string>, b: seq<string>) {
    |a| == |b| && forall i :: 0 <= i < |a| ==> a[i] <= b[i]
  }

  lemma ShrunkBetween(a: seq<string>, b: seq<string>, c: seq<string>)
    requires Shrunk(a, b) && Shrunk(b, c)
    ensures Shrunk(a, c) && (a == c ==> b == c)
  {
    if a == c {
      forall i | 0 <= i < |b|
        ensures b[i] == c[i]
      {
        assert a[i] == c[i] && |a[i]| <= |b[i]| <= |c[i]|;
        assert b[i] == c[i][..|b[i]|];
      }
    }
  }

  lemma EqualTextsEqualLines(a: seq<string>, b: seq<string>, block: seq<string>, eol: string)
    requires |a| == |b| && forall i :: 0 <= i < |a| ==> a[i] <= b[i]
    ensures Terminated(Body(a) + block, eol) == Terminated(Body(b) + block, eol) <==> a == b
  {
    TerminatedAppend(Body(a), block, eol);
    TerminatedAppend(Body(b), block, eol);
    ShorterLinesShorterText(Body(a), Body(b), eol);
    hide Terminated;
  }

  lemma AppliedIs(text: string, entries: seq<Entry>, eol: string)
    ensures Applied(text, entries, eol) == Terminated(Body(Kept(text)) + Block(entries), eol)
  {
    hide Terminated, Body, Kept, Block;
  }

  /**
   Writing e1 and then e2 leaves the bytes that writing e2 alone would have left,
   exactly for the files whose kept lines do not still end in a carriage return.
   */
  lemma LastWriteWins(text: string, e1: seq<Entry>, e2: seq<Entry>, eol: string)
    requires ValidEol(eol) && ValidEntries(e1) && ValidEntries(e2)
    ensures Applied(Applied(text, e1, eol), e2, eol) == Applied(text, e2, eol) <==> NoStrayCR(text)
  {
    hide *;
    ReadBack(text, e1, eol);
    RereadIsIdentity(text, eol);
    AppliedIs(text, e2, eol);
    AppliedIs(Applied(text, e1, eol), e2, eol);
    EqualTextsEqualLines(RereadLines(Kept(text), eol), Kept(text), Block(e2), eol);
  }

  /** Two carriage returns at the end of a line are dropped by one reading; only a third one is left over. */
  ghost predicate AtMostTwoCRs(text: string) {
    forall i :: 0 <= i < |Split(text, '\n')| ==> !EndsInCR(DropCR(DropCR(Split(text, '\n')[i])))
  }

  lemma AtMostTwoCRsSuffice(text: string)
    requires AtMostTwoCRs(text)
    ensures NoStrayCR(text)
  {
    hide Split, IsMarker, EndsInCR, DropCR;
    var lines := ScanLines(text);
    forall i | 0 <= i < |Kept(text)| ensures !EndsInCR(Kept(text)[i]) {
      var k := UnmanagedLines(lines, i);
      assert lines[k] == DropCR(Split(text, '\n')[k]);
    }
  }

  /** A file as the agent would write it itself, without a block. */
  ghost predicate CleanLines(lines: seq<string>) {
    && lines != [] && SingleLines(lines)
    && (forall i :: 0 <= i < |lines| ==> !IsMarker(lines[i]) && !EndsInCR(lines[i]))
    && TrimSpace(lines[|lines| - 1]) != ""
  }

  lemma PlainScan(text: string, lines: seq<string>)
    requires ScanLines(text) == lines == DropCRs(lines) && lines != [] && TrimSpace(lines[|lines| - 1]) != ""
    requires forall i :: 0 <= i < |lines| ==> !IsMarker(lines[i])
    ensures Kept(text) == lines
  {
    hide ScanLines, IsMarker, DropCRs, TrimSpace;
    PlainLines(lines);
    hide Unmanaged, Managed, InBlock;
  }

  lemma CleanLinesStay(lines: seq<string>, eol: string)
    requires ValidEol(eol) && forall i :: 0 <= i < |lines| ==> !EndsInCR(lines[i])
    ensures RescannedLines(lines, eol) == lines == DropCRs(lines)
  {
  }

  /** Taking an override away restores a clean file byte for byte. */
  lemma ClearRestores(lines: seq<string>, entries: seq<Entry>, eol: string)
    requires ValidEol(eol) && ValidEntries(entries) && CleanLines(lines)
    ensures var text := Terminated(lines, eol); Applied(Applied(text, entries, eol), [], eol) == text
  {
    var text := Terminated(lines, eol);
    assert Body(lines) + Block([]) == lines;
    hide Terminated, Kept, ScanLines, DropCRs, RescannedLines, IsMarker, TrimSpace, ValidEol, Applied, EndsInCR,
         SingleLines, ValidEntries, Body, Block;
    ScanOfTerminated(lines, eol);
    CleanLinesStay(lines, eol);
    PlainScan(text, lines);
    LastWriteWins(text, entries, [], eol);
    AppliedIs(text, [], eol);
  }

  lemma KeptOfOneLine(l3: string, l2: string, l1: string)
    requires '\n' !in l3 && DropCR(l3) == l2 && DropCR(l2) == l1 && !IsMarker(l2) && TrimSpace(l1) != ""
    ensures Kept(l3 + ['\n'] + []) == [l1]
  {
    SplitAtSeparator(l3, [], '\n');
    assert Split(l3 + ['\n'] + [], '\n') == [l3, []];
    hide TrimSpace, Split, IsMarker, DropCR;
    assert [l3, []][..1] == [l3];
    assert ScanLines(l3 + ['\n'] + []) == [l2];
    PlainLines([l2]);
    assert DropCRs([l2]) == [l1];
  }

  lemma DropOneCR(line: string)
    ensures DropCR(line + ['\r']) == line && TrimSpace(line + ['\r']) == TrimSpace(line)
  {
    assert (line + ['\r'])[..|line|] == line;
    TrimSpaceDropsCR(line + ['\r']);
  }

  /** A line that ends in three carriage returns is kept with one of them. */
  lemma StrayCRIsKept(line: string)
    requires '\n' !in line && TrimSpace(line) != BLOCK_BEGIN && TrimSpace(line) != BLOCK_END && TrimSpace(line) != ""
    ensures var text := line + ['\r'] + ['\r'] + ['\r'] + ['\n'] + [];
      Kept(text) == [line + ['\r']] && !NoStrayCR(text)
  {
    hide TrimSpace, DropCR, BLOCK_BEGIN, BLOCK_END, Kept;
    var l1 := line + ['\r'];
    DropOneCR(line);
    DropOneCR(l1);
    DropOneCR(l1 + ['\r']);
    KeptOfOneLine(l1 + ['\r'] + ['\r'], l1 + ['\r'], l1);
    var kept := Kept(l1 + ['\r'] + ['\r'] + ['\n'] + []);
    assert kept[0] == l1 && EndsInCR(kept[0]);
  }
}
