/** Removals from the text of agent.yml, whatever its lists hold and however it ends: config.go. */
module ServicesRemovals {
  import opened Results
  import opened Text
  import opened YamlScalars
  import opened ServicesText
  import opened ServicesList
  import opened ServicesDoc
  import opened ServicesEdits
  import opened ServicesAdds

  // ----- What a removal looks for, and where -----

  /** The form that a removal looks for in the whole file: objects if there are any, else scalars. */
  function RemovedForm(lines: seq<string>, item: string): LineKind {
    if HasKind(lines, Named(item)) then Named(item) else Scalar(item)
  }

  function Drop(lines: seq<string>, form: LineKind): seq<string> {
    match form
    case Named(item) => RemoveObjects(lines, item).kept
    case Scalar(item) => RemoveScalars(lines, item)
    case _ => lines
  }

  predicate ItemForm(form: LineKind) {
    form.Named? || form.Scalar?
  }

  /** The lines a removal looks at, counted from the first, and the form it looks for. */
  datatype Search = Search(seen: nat, form: LineKind)

  /** Without a final newline the last line is seen only when no other is listed, and then only as a scalar. */
  function SearchOf(lines: seq<string>, ended: bool, item: string): (s: Search)
    requires lines != []
    ensures s.seen <= |lines| && ItemForm(s.form)
  {
    var front := lines[..|lines| - 1];
    if ended then Search(|lines|, RemovedForm(lines, item))
    else if Listed(front, item) then Search(|front|, RemovedForm(front, item))
    else Search(|lines|, Scalar(item))
  }

  /** The lines that are left. */
  function Left(lines: seq<string>, s: Search): seq<string>
    requires s.seen <= |lines|
  {
    Drop(lines[..s.seen], s.form) + lines[s.seen..]
  }

  // ----- Dropping -----

  lemma {:induction false} RemoveObjectsAppend(a: seq<string>, b: seq<string>, item: string)
    requires !RemoveObjects(a, item).dropping || b == [] || !Continues(b[0])
    ensures RemoveObjects(a + b, item).kept == RemoveObjects(a, item).kept + RemoveObjects(b, item).kept
    ensures b != [] ==> RemoveObjects(a + b, item).dropping == RemoveObjects(b, item).dropping
  {
    hide Classify;
    if b == [] {
      assert a + b == a;
    } else {
      var n := |b| - 1;
      assert (a + b)[..|a| + n] == a + b[..n] && (a + b)[|a| + n] == b[n];
      RemoveObjectsAppend(a, b[..n], item);
      assert n == 0 ==> a + b[..n] == a;
    }
  }

  lemma {:induction false} RemoveScalarsAppend(a: seq<string>, b: seq<string>, item: string)
    ensures RemoveScalars(a + b, item) == RemoveScalars(a, item) + RemoveScalars(b, item)
  {
    hide Classify;
    if b == [] {
      assert a + b == a;
    } else {
      var n := |b| - 1;
      assert (a + b)[..|a| + n] == a + b[..n] && (a + b)[|a| + n] == b[n];
      RemoveScalarsAppend(a, b[..n], item);
    }
  }

  lemma {:induction false} NothingToRemove(lines: seq<string>, item: string)
    requires !Listed(lines, item)
    ensures RemoveObjects(lines, item) == Removal(lines, false) && RemoveScalars(lines, item) == lines
  {
    hide Classify;
    if lines != [] {
      var n := |lines| - 1;
      assert !Listed(lines[..n], item) by {
        assert forall i :: 0 <= i < n ==> lines[..n][i] == lines[i];
      }
      NothingToRemove(lines[..n], item);
      assert !Registers(lines[n], item);
      assert lines[..n] + [lines[n]] == lines;
    }
  }

  lemma {:induction false} NothingToDrop(lines: seq<string>, form: LineKind)
    requires !HasKind(lines, form)
    ensures Drop(lines, form) == lines && (form.Named? ==> !RemoveObjects(lines, form.name).dropping)
  {
    hide Classify;
    if lines != [] {
      var n := |lines| - 1;
      assert lines[..n] + [lines[n]] == lines;
      LastKind(lines[..n], lines[n], form);
      NothingToDrop(lines[..n], form);
    }
  }

  lemma {:induction false} NothingLeft(lines: seq<string>, form: LineKind)
    requires ItemForm(form)
    ensures !HasKind(Drop(lines, form), form)
  {
    hide Classify, HasKind;
    if lines == [] {
      NoKindInNone(form);
    } else {
      var n := |lines| - 1;
      NothingLeft(lines[..n], form);
      LastKind(Drop(lines[..n], form), lines[n], form);
    }
  }

  lemma NoKindInNone(form: LineKind)
    ensures !HasKind([], form)
  {
  }

  /** The lines are left as they are exactly when the form does not occur in them. */
  lemma DropsNothing(lines: seq<string>, form: LineKind)
    requires ItemForm(form)
    ensures Drop(lines, form) == lines <==> !HasKind(lines, form)
  {
    hide HasKind, Drop;
    NothingLeft(lines, form);
    if !HasKind(lines, form) {
      NothingToDrop(lines, form);
    }
  }

  lemma DropAppend(a: seq<string>, b: seq<string>, form: LineKind)
    requires b == [] || !Continues(b[0]) || a == [] || Classify(a[|a| - 1]) == Other
    ensures Drop(a + b, form) == Drop(a, form) + Drop(b, form)
  {
    match form
    case Named(item) =>
      hide Classify;
      RemoveObjectsAppend(a, b, item);
    case Scalar(item) => RemoveScalarsAppend(a, b, item);
    case _ =>
  }

  lemma DropHead(head: string, form: LineKind)
    requires AtColumnZero(head, SERVICES) && ItemForm(form)
    ensures Drop([head], form) == [head] && Classify(head) == Other && !Continues(head)
  {
    HeadIsOther(head);
    hide Classify;
    NothingToDrop([head], form);
  }

  lemma DroppedAreOld(lines: seq<string>, form: LineKind)
    requires ItemForm(form)
    ensures forall l :: l in Drop(lines, form) ==> l in lines
  {
    KeptLinesAreOld(lines, form.name);
    hide RemoveObjects, RemoveScalars;
  }

  lemma TopLevelLineEndsItem(post: seq<string>)
    requires post != [] ==> !InBlock(post[0])
    ensures post == [] || !Continues(post[0])
  {
  }

  lemma {:induction false} DropShrinks(lines: seq<string>, form: LineKind)
    ensures |Drop(lines, form)| <= |lines|
  {
    hide Classify;
    if lines != [] {
      DropShrinks(lines[..|lines| - 1], form);
    }
  }

  /** A removal works on the lines before the list, in its block and after it alike. */
  lemma DropParts(pre: seq<string>, head: string, block: seq<string>, post: seq<string>, form: LineKind)
    requires AtColumnZero(head, SERVICES) && ItemForm(form) && (post != [] ==> !InBlock(post[0]))
    ensures Drop(pre + [head] + block + post, form)
         == Drop(pre, form) + [head] + Drop(block, form) + Drop(post, form)
  {
    TopLevelLineEndsItem(post);
    DropHead(head, form);
    hide Continues, Drop, Classify, AtColumnZero;
    DropAppend(pre, [head], form);
    DropAppend(pre + [head], block, form);
    DropAppend(pre + [head] + block, post, form);
  }

  // ----- A removal on the text -----

  lemma EndedParts(text: string)
    requires EndsInNewline(text)
    ensures TerminatedLines(text) != [] && Split(text, '\n') == TerminatedLines(text) + [[]]
  {
    var parts := Split(text, '\n');
    LastPieceAfterNewline(text);
    hide Split;
    assert parts[..|parts| - 1] + [[]] == parts;
  }

  lemma UnendedParts(text: string)
    requires !EndsInNewline(text)
    ensures TerminatedLines(text) == Split(text, '\n')
    ensures var lines := TerminatedLines(text); |lines| > 1 ==> lines[|lines| - 1] != []
  {
    var parts := Split(text, '\n');
    LastPieceAfterNewline(text);
    JoinOfSplit(text, '\n');
    EndingJoin(parts);
    LinesOfText(parts);
    hide Split, Join, TextOf;
    assert (parts + [[]])[..|parts|] == parts;
  }

  lemma PartsOfText(text: string)
    ensures var lines := TerminatedLines(text);
      && lines != [] && (forall i :: 0 <= i < |lines| ==> '\n' !in lines[i])
      && Split(text, '\n') == (if EndsInNewline(text) then lines + [[]] else lines)
      && (!EndsInNewline(text) && |lines| > 1 ==> lines[|lines| - 1] != [])
  {
    hide *;
    if EndsInNewline(text) {
      EndedParts(text);
    } else {
      UnendedParts(text);
    }
  }

  lemma LinesOfJoin(front: seq<string>, last: string)
    requires last != [] && '\n' !in last && forall i :: 0 <= i < |front| ==> '\n' !in front[i]
    ensures TerminatedLines(Join(front + [last], "\n")) == front + [last]
    ensures !EndsInNewline(Join(front + [last], "\n"))
  {
    hide *;
    var lines := front + [last];
    assert lines[|lines| - 1] == last;
    SplitOfLines(lines);
    LastPieceAfterNewline(Join(lines, "\n"));
    UnendedParts(Join(lines, "\n"));
  }

  lemma SplitOfLines(lines: seq<string>)
    requires lines != [] && forall i :: 0 <= i < |lines| ==> '\n' !in lines[i]
    ensures Split(Join(lines, "\n"), '\n') == lines
  {
    SplitOfJoin(lines, '\n');
    hide Split, Join;
  }

  lemma LinesOfEnded(lines: seq<string>)
    requires forall i :: 0 <= i < |lines| ==> '\n' !in lines[i]
    ensures TerminatedLines(TextOf(lines)) == if lines == [] then [[]] else lines
  {
    LinesOfText(lines);
    if lines == [] {
      assert TextOf([]) == "";
      UnendedParts("");
    }
    hide TerminatedLines, TextOf;
  }

  lemma {:induction false} DroppedAreSingle(lines: seq<string>, form: LineKind)
    requires ItemForm(form) && forall i :: 0 <= i < |lines| ==> '\n' !in lines[i]
    ensures forall i :: 0 <= i < |Drop(lines, form)| ==> '\n' !in Drop(lines, form)[i]
  {
    DroppedAreOld(lines, form);
    hide Drop;
    forall i | 0 <= i < |Drop(lines, form)|
      ensures '\n' !in Drop(lines, form)[i]
    {
      assert Drop(lines, form)[i] in lines;
    }
  }

  lemma RemoveIs(text: string, item: string)
    ensures var parts := Split(text, '\n'); var (front, last) := (parts[..|parts| - 1], parts[|parts| - 1]);
      RemoveListItem(text, item)
      == if HasKind(front, Named(item)) then Ok(Join(Drop(front, Named(item)) + [last], "\n"))
         else if HasKind(front, Scalar(item)) then Ok(Join(Drop(front, Scalar(item)) + [last], "\n"))
         else if Classify(last) == Scalar(item) then Ok(TextOf(front))
         else Err("is not registered")
  {
    hide Split, Join, HasKind, RemoveObjects, RemoveScalars, Classify;
  }

  lemma EndedRemoval(text: string, item: string)
    requires EndsInNewline(text)
    ensures var (lines, r) := (TerminatedLines(text), RemoveListItem(text, item));
      var form := RemovedForm(lines, item);
      r == if HasKind(lines, form) then Ok(TextOf(Drop(lines, form))) else Err("is not registered")
  {
    PartsOfText(text);
    EmptyLineIsOther([]);
    hide TerminatedLines, Split, Join, HasKind, Drop, Classify, RemoveListItem;
    RemoveIs(text, item);
    var lines := TerminatedLines(text);
    assert (lines + [[]])[..|lines|] == lines;
  }

  lemma UnendedRemoval(text: string, item: string)
    requires !EndsInNewline(text)
    ensures var (lines, r) := (TerminatedLines(text), RemoveListItem(text, item));
      lines != [] && var (front, last) := (lines[..|lines| - 1], lines[|lines| - 1]);
      var form := RemovedForm(front, item);
      r == if Listed(front, item) then Ok(Join(Drop(front, form) + [last], "\n"))
           else if Classify(last) == Scalar(item) then Ok(TextOf(front))
           else Err("is not registered")
  {
    PartsOfText(text);
    hide TerminatedLines, Split, Join, HasKind, Drop, Classify, RemoveListItem, Listed;
    RemoveIs(text, item);
    var lines := TerminatedLines(text);
    ListedIsKind(lines[..|lines| - 1], item);
  }

  lemma FoundForm(lines: seq<string>, item: string)
    ensures HasKind(lines, RemovedForm(lines, item)) <==> Listed(lines, item)
  {
    ListedIsKind(lines, item);
    hide HasKind, Listed;
  }

  /**
   What a removal leaves of any text: the form it looks for is dropped from the
   lines it sees, and it is refused exactly if there is none.
   */
  lemma RemovalOfText(text: string, item: string)
    ensures TerminatedLines(text) != []
    ensures var (lines, r) := (TerminatedLines(text), RemoveListItem(text, item));
      var s := SearchOf(lines, EndsInNewline(text), item);
      && (r.Ok? <==> HasKind(lines[..s.seen], s.form))
      && TerminatedLines(if r.Ok? then r.value else text) == (if Left(lines, s) == [] then [[]] else Left(lines, s))
  {
    hide *;
    PartsOfText(text);
    var lines := TerminatedLines(text);
    SearchIs(lines, EndsInNewline(text), item);
    LeftIs(lines, SearchOf(lines, EndsInNewline(text), item));
    if EndsInNewline(text) {
      RemovalOfEnded(text, item, lines);
    } else if Listed(lines[..|lines| - 1], item) {
      RemovalOfFront(text, item, lines);
    } else {
      RemovalOfLast(text, item, lines);
    }
  }

  lemma SearchIs(lines: seq<string>, ended: bool, item: string)
    requires lines != []
    ensures var front := lines[..|lines| - 1];
      SearchOf(lines, ended, item)
      == if ended then Search(|lines|, RemovedForm(lines, item))
         else if Listed(front, item) then Search(|lines| - 1, RemovedForm(front, item))
         else Search(|lines|, Scalar(item))
  {
    hide RemovedForm, Listed;
  }

  lemma LeftIs(lines: seq<string>, s: Search)
    requires s.seen <= |lines|
    ensures Left(lines, s) == Drop(lines[..s.seen], s.form) + lines[s.seen..]
    ensures s.seen == |lines| ==> Left(lines, s) == Drop(lines, s.form) && lines[..s.seen] == lines
    ensures lines != [] && s.seen == |lines| - 1 ==> Left(lines, s) != []
  {
    hide Drop;
    if s.seen == |lines| {
      assert lines[..|lines|] == lines && lines[|lines|..] == [];
    }
  }

  lemma RemovalOfEnded(text: string, item: string, lines: seq<string>)
    requires EndsInNewline(text) && lines == TerminatedLines(text) != []
    ensures var (form, r) := (RemovedForm(lines, item), RemoveListItem(text, item));
      && (r.Ok? <==> HasKind(lines, form))
      && TerminatedLines(if r.Ok? then r.value else text)
         == (if Drop(lines, form) == [] then [[]] else Drop(lines, form))
  {
    var form := RemovedForm(lines, item);
    FormIsItem(lines, item);
    hide *;
    PartsOfText(text);
    EndedRemoval(text, item);
    if HasKind(lines, form) {
      DroppedAreSingle(lines, form);
      LinesOfEnded(Drop(lines, form));
    } else {
      NothingToDrop(lines, form);
    }
  }

  lemma FormIsItem(lines: seq<string>, item: string)
    ensures ItemForm(RemovedForm(lines, item))
    ensures RemovedForm(lines, item) == Named(item) || RemovedForm(lines, item) == Scalar(item)
  {
  }

  lemma RemovalOfFront(text: string, item: string, lines: seq<string>)
    requires !EndsInNewline(text) && lines == TerminatedLines(text) != [] && Listed(lines[..|lines| - 1], item)
    ensures var (front, last) := (lines[..|lines| - 1], lines[|lines| - 1]);
      var (form, r) := (RemovedForm(front, item), RemoveListItem(text, item));
      && r.Ok? && HasKind(front, form)
      && TerminatedLines(r.value) == Drop(front, form) + lines[|lines| - 1..]
  {
    var (front, last) := (lines[..|lines| - 1], lines[|lines| - 1]);
    FormIsItem(front, item);
    hide *;
    PartsOfText(text);
    UnendedRemoval(text, item);
    FoundForm(front, item);
    EmptyListsNothing(item);
    DroppedAreSingle(front, RemovedForm(front, item));
    LinesOfJoin(Drop(front, RemovedForm(front, item)), last);
    assert lines[|lines| - 1..] == [last];
  }

  lemma RemovalOfLast(text: string, item: string, lines: seq<string>)
    requires !EndsInNewline(text) && lines == TerminatedLines(text) != [] && !Listed(lines[..|lines| - 1], item)
    ensures var (left, r) := (Drop(lines, Scalar(item)), RemoveListItem(text, item));
      && (r.Ok? <==> HasKind(lines, Scalar(item)))
      && TerminatedLines(if r.Ok? then r.value else text) == (if left == [] then [[]] else left)
  {
    var (front, last) := (lines[..|lines| - 1], lines[|lines| - 1]);
    hide *;
    PartsOfText(text);
    UnendedRemoval(text, item);
    ListedIsKind(front, item);
    assert front + [last] == lines;
    LastKind(front, last, Scalar(item));
    if Classify(last) == Scalar(item) {
      ScalarAtEnd(front, last, item);
      LinesOfEnded(front);
    } else {
      NothingToDrop(lines, Scalar(item));
    }
  }

  lemma ScalarAtEnd(front: seq<string>, last: string, item: string)
    requires Classify(last) == Scalar(item) && !HasKind(front, Scalar(item))
    ensures Drop(front + [last], Scalar(item)) == front
  {
    NothingToDrop(front, Scalar(item));
    hide Classify, HasKind;
    assert (front + [last])[..|front|] == front;
  }

  // ----- An item that is cut short -----

  /** The object item of the name, with the lines that continue it, is the last thing in the file. */
  predicate ItemAtEnd(lines: seq<string>, item: string) {
    exists i :: 0 <= i < |lines| && Classify(lines[i]) == Named(item) && ContinuedFrom(lines, i + 1)
  }

  predicate ContinuedFrom(lines: seq<string>, i: nat) {
    forall k :: i <= k < |lines| ==> Continues(lines[k])
  }

  /** That is when an object removal is still inside the item after the last line. */
  lemma {:induction false} DroppingIsAtEnd(lines: seq<string>, item: string)
    ensures RemoveObjects(lines, item).dropping <==> ItemAtEnd(lines, item)
  {
    hide Classify;
    if lines != [] {
      var n := |lines| - 1;
      DroppingIsAtEnd(lines[..n], item);
      assert lines[..n] + [lines[n]] == lines;
      ItemAtEndStep(lines[..n], lines[n], item);
    }
  }

  lemma ItemAtEndStep(lines: seq<string>, line: string, item: string)
    ensures ItemAtEnd(lines + [line], item)
       <==> Classify(line) == Named(item) || (ItemAtEnd(lines, item) && Continues(line))
  {
    hide Classify;
    var all := lines + [line];
    if Classify(line) == Named(item) {
      assert Classify(all[|lines|]) == Named(item) && ContinuedFrom(all, |lines| + 1);
    }
    if ItemAtEnd(lines, item) && Continues(line) {
      var i :| 0 <= i < |lines| && Classify(lines[i]) == Named(item) && ContinuedFrom(lines, i + 1);
      assert Classify(all[i]) == Named(item) && ContinuedFrom(all, i + 1);
    }
    if ItemAtEnd(all, item) {
      var i :| 0 <= i < |all| && Classify(all[i]) == Named(item) && ContinuedFrom(all, i + 1);
      if i < |lines| {
        assert Continues(all[|lines|]);
        forall k | i + 1 <= k < |lines|
          ensures Continues(lines[k])
        {
          assert Continues(all[k]) && all[k] == lines[k];
        }
        assert Classify(lines[i]) == Named(item) && ContinuedFrom(lines, i + 1);
      }
    }
  }

  lemma ItemAtEndIsListed(lines: seq<string>, item: string)
    requires ItemAtEnd(lines, item)
    ensures Listed(lines, item)
  {
    var i :| 0 <= i < |lines| && Classify(lines[i]) == Named(item) && ContinuedFrom(lines, i + 1);
    assert Registers(lines[i], item);
  }

  lemma LastEntryIsAlone(block: seq<string>, item: string)
    requires block != [] && Distinct(Entries(block)) && Registers(block[|block| - 1], item)
    ensures !Listed(block[..|block| - 1], item)
  {
    var before := block[..|block| - 1];
    hide Classify, Listed, Distinct, Reading.AfterLine;
    ListedIsEntry(before, item);
    ItemEntries(Read(before), item);
    if HasEntry(Entries(before), item) {
      EntryTwice(Entries(before), item);
    }
  }

  lemma ItemAtEndIsNamed(lines: seq<string>, item: string)
    requires ItemAtEnd(lines, item)
    ensures HasKind(lines, Named(item))
  {
    hide Classify;
    var i :| 0 <= i < |lines| && Classify(lines[i]) == Named(item) && ContinuedFrom(lines, i + 1);
  }

  // ----- A removal on the document -----

  /** A line outside the block is one of those that are dropped. */
  predicate TakesOutside(d: Doc, ended: bool, name: string) {
    d.Lines() != [] &&
    var s := SearchOf(d.Lines(), ended, name);
    exists k :: 0 <= k < s.seen && !d.InList(k) && Classify(d.Lines()[k]) == s.form
  }

  /** The entry is an object that ends the file, and the last line of the file has no newline. */
  predicate CutShort(d: Doc, ended: bool, name: string) {
    !ended && d.BlockList? && d.post == [] && ItemAtEnd(d.block, name)
  }

  predicate FormOf(form: LineKind, name: string) {
    form == Named(name) || form == Scalar(name)
  }

  lemma SearchForm(lines: seq<string>, ended: bool, name: string)
    requires lines != []
    ensures FormOf(SearchOf(lines, ended, name).form, name)
  {
    hide Listed, HasKind;
  }

  /** The form that a removal finds drops the entry of the block exactly if the entry has that form. */
  lemma DropOfEntry(block: seq<string>, name: string, form: LineKind)
    requires Distinct(Entries(block)) && Listed(block, name) && FormOf(form, name)
    ensures Drop(block, form) == RemoveFromBlock(block, name) <==> HasKind(block, form)
  {
    OneFormPerName(block, name);
    ListedIsKind(block, name);
    NothingLeft(block, Named(name));
    NothingLeft(block, Scalar(name));
    if !HasKind(block, form) {
      NothingToDrop(block, form);
    }
    hide HasKind, Listed, Distinct, Entries, RemoveObjects, RemoveScalars;
  }

  // ----- A name that is no entry -----

  lemma SameFront<T>(a: seq<T>, b: seq<T>, c: seq<T>)
    ensures a + c == b + c <==> a == b
  {
    if a + c == b + c {
      assert |a| == |b| && a == (a + c)[..|a|] && b == (b + c)[..|b|];
    }
  }

  lemma UnlistedBlock(d: Doc, name: string, k: nat)
    requires !HasEntry(d.Services(), name) && d.InList(k)
    ensures !Registers(d.Lines()[k], name)
  {
    ListedIsEntry(d.block, name);
    hide Registers, HasEntry, Entries;
    assert d.Lines()[k] == d.block[k - |d.pre| - 1];
  }

  /** Every line of the form stands outside. */
  lemma OutsideOnly(d: Doc, ended: bool, name: string)
    requires d.Lines() != [] && !HasEntry(d.Services(), name)
    ensures var s := SearchOf(d.Lines(), ended, name);
      HasKind(d.Lines()[..s.seen], s.form) <==> TakesOutside(d, ended, name)
  {
    var (lines, s) := (d.Lines(), SearchOf(d.Lines(), ended, name));
    SearchForm(lines, ended, name);
    FormRegisters(s.form, name);
    hide *;
    if HasKind(lines[..s.seen], s.form) {
      var k := KindAt(lines[..s.seen], s.form);
      assert lines[..s.seen][k] == lines[k];
      InListIsUnlisted(d, name, k, s.form);
      TakesAt(d, ended, name, k);
    }
    if TakesOutside(d, ended, name) {
      var k := TakenAt(d, ended, name);
      assert lines[..s.seen][k] == lines[k];
      HasKindAt(lines[..s.seen], s.form, k);
    }
  }

  lemma InListIsUnlisted(d: Doc, name: string, k: nat, form: LineKind)
    requires !HasEntry(d.Services(), name) && k < |d.Lines()| && Classify(d.Lines()[k]) == form && FormOf(form, name)
    ensures !d.InList(k)
  {
    if d.InList(k) {
      UnlistedBlock(d, name, k);
    }
    hide Classify, Doc.InList, Doc.Lines, HasEntry;
  }

  lemma TakenAt(d: Doc, ended: bool, name: string) returns (k: nat)
    requires TakesOutside(d, ended, name)
    ensures var s := SearchOf(d.Lines(), ended, name);
      k < s.seen && !d.InList(k) && Classify(d.Lines()[k]) == s.form
  {
    hide Classify, SearchOf, Doc.Lines, Doc.InList;
    var s := SearchOf(d.Lines(), ended, name);
    k :| 0 <= k < s.seen && !d.InList(k) && Classify(d.Lines()[k]) == s.form;
  }

  lemma HasKindAt(lines: seq<string>, form: LineKind, k: nat)
    requires k < |lines| && Classify(lines[k]) == form
    ensures HasKind(lines, form)
  {
    hide Classify;
  }

  lemma NoEntryLeft(d: Doc, ended: bool, name: string)
    requires d.Lines() != [] && !HasEntry(d.Services(), name)
    ensures var s := SearchOf(d.Lines(), ended, name);
      && (HasKind(d.Lines()[..s.seen], s.form) <==> TakesOutside(d, ended, name))
      && (Left(d.Lines(), s) == d.Lines() <==> !TakesOutside(d, ended, name))
    ensures !CutShort(d, ended, name)
  {
    hide *;
    OutsideOnly(d, ended, name);
    LeftDiffers(d.Lines(), SearchOf(d.Lines(), ended, name));
    NotCutShort(d, ended, name);
  }

  lemma NotCutShort(d: Doc, ended: bool, name: string)
    requires !HasEntry(d.Services(), name)
    ensures !CutShort(d, ended, name)
  {
    hide HasEntry, Entries, ItemAtEnd, Doc.Lines;
    if d.BlockList? {
      ListedIsEntry(d.block, name);
      UnlistedIsNotAtEnd(d.block, name);
    }
  }

  lemma UnlistedIsNotAtEnd(block: seq<string>, name: string)
    requires !Listed(block, name)
    ensures !ItemAtEnd(block, name)
  {
    DroppingIsAtEnd(block, name);
    NothingToRemove(block, name);
    hide Listed, ItemAtEnd, RemoveObjects;
  }

  lemma BlockServices(d: Doc)
    requires d.BlockList?
    ensures d.Services() == Entries(d.block) && d.Lines() == d.pre + [d.head] + d.block + d.post
  {
    hide Entries;
  }

  lemma FormRegisters(form: LineKind, name: string)
    requires FormOf(form, name)
    ensures forall l :: Classify(l) == form ==> Registers(l, name)
    ensures ItemForm(form)
  {
    hide Classify;
  }

  // ----- A name that is an entry -----

  /** The lines after the block that a removal sees. */
  function SeenAfter(d: Doc, seen: nat): seq<string>
    requires d.BlockList?
  {
    if seen < |d.Lines()| && d.post != [] then d.post[..|d.post| - 1] else d.post
  }

  lemma LineOutside(d: Doc, k: nat)
    requires d.BlockList? && k < |d.Lines()| && !d.InList(k)
    ensures d.Lines()[k] == if k < |d.pre| then d.pre[k] else if k == |d.pre| then d.head
                            else d.post[k - |d.pre| - |d.block| - 1]
    ensures |d.Lines()| == |d.pre| + 1 + |d.block| + |d.post|
  {
  }

  lemma OutsideParts(d: Doc, ended: bool, name: string)
    requires d.BlockList? && d.block != [] && AtColumnZero(d.head, SERVICES)
    ensures d.Lines() != []
    ensures var s := SearchOf(d.Lines(), ended, name);
      TakesOutside(d, ended, name) <==> HasKind(d.pre, s.form) || HasKind(SeenAfter(d, s.seen), s.form)
  {
    SomeLines(d);
    var (lines, s) := (d.Lines(), SearchOf(d.Lines(), ended, name));
    SeenEnough(lines, ended, name);
    HeadIsOther(d.head);
    hide Classify, SearchOf, Doc.Lines;
    if TakesOutside(d, ended, name) {
      var k :| 0 <= k < s.seen && !d.InList(k) && Classify(lines[k]) == s.form;
      LineOutside(d, k);
      if k < |d.pre| {
        assert Classify(d.pre[k]) == s.form;
      } else {
        assert Classify(SeenAfter(d, s.seen)[k - |d.pre| - |d.block| - 1]) == s.form;
      }
    }
    PartsOutside(d, ended, name);
  }

  lemma SomeLines(d: Doc)
    requires d.BlockList?
    ensures |d.Lines()| == |d.pre| + 1 + |d.block| + |d.post|
  {
  }

  lemma KindAt(lines: seq<string>, form: LineKind) returns (k: nat)
    requires HasKind(lines, form)
    ensures k < |lines| && Classify(lines[k]) == form
  {
    hide Classify;
    k :| 0 <= k < |lines| && Classify(lines[k]) == form;
  }

  lemma TakesAt(d: Doc, ended: bool, name: string, k: nat)
    requires k < |d.Lines()| && k < SearchOf(d.Lines(), ended, name).seen && !d.InList(k)
    requires Classify(d.Lines()[k]) == SearchOf(d.Lines(), ended, name).form
    ensures TakesOutside(d, ended, name)
  {
    hide Classify, SearchOf, Doc.Lines, Doc.InList;
  }

  lemma InPart(d: Doc, seen: nat, k: nat)
    requires d.BlockList? && d.block != [] && |d.Lines()| - 1 <= seen <= |d.Lines()|
    ensures k < |d.pre| ==> k < |d.Lines()| && k < seen && !d.InList(k) && d.Lines()[k] == d.pre[k]
    ensures var (n, after) := (|d.pre| + 1 + |d.block| + k, SeenAfter(d, seen));
      k < |after| ==> n < |d.Lines()| && n < seen && !d.InList(n) && d.Lines()[n] == after[k]
  {
    SomeLines(d);
    if k < |SeenAfter(d, seen)| {
      LineOutside(d, |d.pre| + 1 + |d.block| + k);
    }
    if k < |d.pre| {
      LineOutside(d, k);
    }
  }

  lemma PartsOutside(d: Doc, ended: bool, name: string)
    requires d.BlockList? && d.block != [] && d.Lines() != []
    ensures var s := SearchOf(d.Lines(), ended, name);
      HasKind(d.pre, s.form) || HasKind(SeenAfter(d, s.seen), s.form) ==> TakesOutside(d, ended, name)
  {
    hide *;
    var s := SearchOf(d.Lines(), ended, name);
    SeenEnough(d.Lines(), ended, name);
    if HasKind(d.pre, s.form) {
      var k := KindAt(d.pre, s.form);
      InPart(d, s.seen, k);
      TakesAt(d, ended, name, k);
    } else if HasKind(SeenAfter(d, s.seen), s.form) {
      var k := KindAt(SeenAfter(d, s.seen), s.form);
      InPart(d, s.seen, k);
      TakesAt(d, ended, name, |d.pre| + 1 + |d.block| + k);
    }
  }

  lemma SeenEnough(lines: seq<string>, ended: bool, name: string)
    requires lines != []
    ensures |lines| - 1 <= SearchOf(lines, ended, name).seen <= |lines|
  {
  }

  /** A removal from the lines before the list moves the key of the list. */
  lemma MovedHead(pre: seq<string>, head: string, form: LineKind, x: seq<string>, y: seq<string>)
    requires ItemForm(form) && HasKind(pre, form) && BlockKey(head, SERVICES) && Plain(pre)
    ensures Drop(pre, form) + [head] + x != pre + [head] + y
  {
    hide HasKind, Drop, BlockKey, InlineEmpty;
    DropsNothing(pre, form);
    DropShrinks(pre, form);
    var (a, left, whole) := (Drop(pre, form), Drop(pre, form) + [head] + x, pre + [head] + y);
    if |a| < |pre| {
      assert left[|a|] == head && whole[|a|] == pre[|a|] && NotKey(pre[|a|]);
    } else {
      assert left[..|pre|] == a && whole[..|pre|] == pre;
    }
  }

  lemma SameBehind<T>(a: seq<T>, b: seq<T>, c: seq<T>)
    ensures a + b == a + c <==> b == c
  {
    if a + b == a + c {
      assert b == (a + b)[|a|..] && c == (a + c)[|a|..];
    }
  }

  /** Block and lines after it, where all of the block is seen. */
  lemma RestIsTarget(block: seq<string>, after: seq<string>, tail: seq<string>, name: string, form: LineKind)
    requires FormOf(form, name) && ItemForm(form) && Distinct(Entries(block)) && Listed(block, name)
    ensures Drop(block, form) + (Drop(after, form) + tail) == RemoveFromBlock(block, name) + (after + tail)
       <==> HasKind(block, form) && !HasKind(after, form)
  {
    var (one, two) := (Drop(block, form), RemoveFromBlock(block, name));
    hide *;
    DropOfEntry(block, name, form);
    Regroup(one, Drop(after, form), tail);
    Regroup(two, after, tail);
    SameFront(one + Drop(after, form), two + after, tail);
    DropsNothing(after, form);
    NothingLeft(after, form);
    NothingLeft(block, form);
    HasKindAppend(one, Drop(after, form), form);
    HasKindAppend(two, after, form);
    SameFront(one, two, after);
  }

  /** Where only the last line of the block is not seen. */
  lemma LastOfBlock(front: seq<string>, last: string, name: string, form: LineKind)
    requires FormOf(form, name) && ItemForm(form) && Distinct(Entries(front + [last])) && HasKind(front, form)
    ensures Drop(front, form) + [last] == RemoveFromBlock(front + [last], name)
       <==> !ItemAtEnd(front + [last], name)
  {
    var block := front + [last];
    assert block[..|front|] == front && block[|front|] == last;
    FormIsListed(front, name, form);
    hide *;
    LastAlone(front, last, name);
    LastKind(front, last, form);
    FormIsListed(block, name, form);
    DropOfEntry(block, name, form);
    DropLast(front, last, name, form);
    OneFormPerName(block, name);
    NamedAtEnd(front, last, name, form);
    MissingLast(Drop(front, form), last);
  }

  lemma MissingLast(front: seq<string>, last: string)
    ensures front + [last] != front
  {
    assert |front + [last]| == |front| + 1;
  }

  lemma FormIsListed(lines: seq<string>, name: string, form: LineKind)
    requires FormOf(form, name) && HasKind(lines, form)
    ensures Listed(lines, name)
  {
    ListedIsKind(lines, name);
    hide HasKind, Listed;
  }

  lemma LastAlone(front: seq<string>, last: string, name: string)
    requires Distinct(Entries(front + [last])) && Listed(front, name)
    ensures !Registers(last, name)
  {
    var block := front + [last];
    assert block[..|front|] == front && block[|front|] == last;
    hide Registers, Distinct, Entries;
    if Registers(last, name) {
      LastEntryIsAlone(block, name);
    }
  }

  lemma DropLast(front: seq<string>, last: string, name: string, form: LineKind)
    requires FormOf(form, name) && !Registers(last, name)
    ensures Drop(front + [last], form)
         == if form == Named(name) && ItemAtEnd(front, name) && Continues(last) then Drop(front, form)
            else Drop(front, form) + [last]
  {
    DroppingIsAtEnd(front, name);
    assert (front + [last])[..|front|] == front;
    hide Classify, ItemAtEnd;
  }

  lemma NamedAtEnd(front: seq<string>, last: string, name: string, form: LineKind)
    requires FormOf(form, name) && HasKind(front, form) && !Registers(last, name)
    requires !(HasKind(front + [last], Named(name)) && HasKind(front + [last], Scalar(name)))
    ensures ItemAtEnd(front + [last], name) <==> form == Named(name) && ItemAtEnd(front, name) && Continues(last)
  {
    ItemAtEndStep(front, last, name);
    LastKind(front, last, Named(name));
    LastKind(front, last, Scalar(name));
    if ItemAtEnd(front, name) {
      ItemAtEndIsNamed(front, name);
    }
    hide Classify, ItemAtEnd, HasKind;
  }

  // ----- The lines that are left, by the part that is not seen -----

  lemma TargetOf(d: Doc, name: string)
    requires Accepts(d, Remove(name))
    ensures d.BlockList? && d.block != [] && Listed(d.block, name) && ValidName(name)
    ensures StepDoc(d, Remove(name)).Lines() == d.pre + [d.head] + RemoveFromBlock(d.block, name) + d.post
  {
    NoEntryInNone(name);
    ListedIsEntry(d.block, name);
    EmptyListsNothing(name);
    hide HasEntry, Entries, Listed, RemoveFromBlock, ValidName;
  }

  lemma FitParts(d: Doc)
    requires WellFormed(d) && d.BlockList?
    ensures Plain(d.pre) && (d.post != [] ==> !InBlock(d.post[0])) && Distinct(Entries(d.block))
    ensures AtColumnZero(d.head, SERVICES) && BlockKey(d.head, SERVICES)
    ensures d.Lines() == d.pre + [d.head] + d.block + d.post
  {
  }

  lemma RegroupParts(pre: seq<string>, head: string, b: seq<string>, p: seq<string>)
    ensures pre + [head] + b + p == pre + [head] + (b + p)
  {
  }

  /** Everything is seen. */
  lemma AllSeen(d: Doc, name: string, form: LineKind)
    requires WellFormed(d) && Accepts(d, Remove(name)) && FormOf(form, name)
    ensures d.BlockList?
    ensures Drop(d.Lines(), form) == StepDoc(d, Remove(name)).Lines()
       <==> HasKind(d.block, form) && !HasKind(d.pre, form) && !HasKind(d.post, form)
  {
    hide *;
    TargetOf(d, name);
    FitParts(d);
    FormIsForm(form, name);
    DropParts(d.pre, d.head, d.block, d.post, form);
    var (b, p, two) := (Drop(d.block, form), Drop(d.post, form), RemoveFromBlock(d.block, name));
    RegroupParts(Drop(d.pre, form), d.head, b, p);
    RegroupParts(d.pre, d.head, two, d.post);
    if HasKind(d.pre, form) {
      MovedHead(d.pre, d.head, form, b + p, two + d.post);
    } else {
      NothingToDrop(d.pre, form);
      RestIsTarget(d.block, d.post, [], name, form);
      assert p + [] == p && d.post + [] == d.post;
      SameBehind(d.pre + [d.head], b + p, two + d.post);
    }
  }

  lemma FormIsForm(form: LineKind, name: string)
    requires FormOf(form, name)
    ensures ItemForm(form)
  {
  }

  /** The last line is not seen, and lies behind the block. */
  lemma LastAfterUnseen(d: Doc, name: string, form: LineKind)
    requires WellFormed(d) && Accepts(d, Remove(name)) && FormOf(form, name) && d.BlockList? && d.post != []
    ensures var (n, m) := (|d.Lines()| - 1, |d.post| - 1);
      n >= 0 &&
      (Drop(d.Lines()[..n], form) + d.Lines()[n..] == StepDoc(d, Remove(name)).Lines()
       <==> HasKind(d.block, form) && !HasKind(d.pre, form) && !HasKind(d.post[..m], form))
  {
    hide *;
    TargetOf(d, name);
    FitParts(d);
    FormIsForm(form, name);
    var (after, tail) := (d.post[..|d.post| - 1], [d.post[|d.post| - 1]]);
    LastOfLines(d);
    DropParts(d.pre, d.head, d.block, after, form);
    var (b, p, two) := (Drop(d.block, form), Drop(after, form), RemoveFromBlock(d.block, name));
    RegroupTail(Drop(d.pre, form), d.head, b, p, tail);
    RegroupParts(d.pre, d.head, two, after + tail);
    if HasKind(d.pre, form) {
      MovedHead(d.pre, d.head, form, b + (p + tail), two + (after + tail));
    } else {
      NothingToDrop(d.pre, form);
      RestIsTarget(d.block, after, tail, name, form);
      SameBehind(d.pre + [d.head], b + (p + tail), two + (after + tail));
    }
  }

  lemma LastOfLines(d: Doc)
    requires d.BlockList? && d.post != []
    ensures var (n, m) := (|d.Lines()| - 1, |d.post| - 1);
      && n >= 0 && d.Lines()[..n] == d.pre + [d.head] + d.block + d.post[..m] && d.Lines()[n..] == [d.post[m]]
      && d.post == d.post[..m] + [d.post[m]] && (d.post[..m] != [] ==> d.post[..m][0] == d.post[0])
  {
  }

  lemma RegroupTail(pre: seq<string>, head: string, b: seq<string>, p: seq<string>, tail: seq<string>)
    ensures pre + [head] + b + p + tail == pre + [head] + (b + (p + tail))
  {
  }

  /** The last line is not seen, and is that of the block. */
  lemma LastInsideUnseen(d: Doc, name: string, form: LineKind)
    requires WellFormed(d) && Accepts(d, Remove(name)) && FormOf(form, name) && d.BlockList? && d.post == []
    requires d.block != [] && (HasKind(d.pre, form) || HasKind(d.block[..|d.block| - 1], form))
    ensures var n := |d.Lines()| - 1;
      n >= 0 &&
      (Drop(d.Lines()[..n], form) + d.Lines()[n..] == StepDoc(d, Remove(name)).Lines()
       <==> !HasKind(d.pre, form) && !ItemAtEnd(d.block, name))
  {
    hide *;
    TargetOf(d, name);
    FitParts(d);
    FormIsForm(form, name);
    var (front, last) := (d.block[..|d.block| - 1], d.block[|d.block| - 1]);
    LastInside(d);
    DropParts(d.pre, d.head, front, [], form);
    DropOfNone(form);
    var (b, two) := (Drop(front, form), RemoveFromBlock(d.block, name));
    NothingBehind(Drop(d.pre, form), d.head, b, [last]);
    NothingBehind(d.pre, d.head, front, []);
    RegroupParts(d.pre, d.head, two, []);
    assert two + [] == two;
    if HasKind(d.pre, form) {
      MovedHead(d.pre, d.head, form, b + [last], two);
    } else {
      NothingToDrop(d.pre, form);
      LastOfBlock(front, last, name, form);
      SameBehind(d.pre + [d.head], b + [last], two);
    }
  }

  lemma LastInside(d: Doc)
    requires d.BlockList? && d.post == [] && d.block != []
    ensures var (n, m) := (|d.Lines()| - 1, |d.block| - 1);
      && n >= 0 && d.Lines()[..n] == d.pre + [d.head] + d.block[..m] && d.Lines()[n..] == [d.block[m]]
      && d.block == d.block[..m] + [d.block[m]]
  {
  }

  lemma DropOfNone(form: LineKind)
    ensures Drop([], form) == []
  {
  }

  lemma NothingBehind(pre: seq<string>, head: string, b: seq<string>, tail: seq<string>)
    ensures pre + [head] + b + [] + tail == pre + [head] + (b + tail) && pre + [head] + b + [] == pre + [head] + b
  {
  }

  // ----- One removal -----

  /** What is seen of the name in each part, if nothing of it is taken outside the block. */
  lemma FoundInBlock(d: Doc, ended: bool, name: string)
    requires WellFormed(d) && Accepts(d, Remove(name)) && d.BlockList? && d.Lines() != []
    requires SearchOf(d.Lines(), ended, name).seen == |d.Lines()| || d.post != []
    requires var s := SearchOf(d.Lines(), ended, name);
      !HasKind(d.pre, s.form) && !HasKind(SeenAfter(d, s.seen), s.form)
    ensures HasKind(d.block, SearchOf(d.Lines(), ended, name).form) <==> !CutShort(d, ended, name)
  {
    var (lines, n) := (d.Lines(), |d.Lines()| - 1);
    hide *;
    TargetOf(d, name);
    FitParts(d);
    SearchIs(lines, ended, name);
    CutShortIs(d, ended, name);
    OneFormPerName(d.block, name);
    if ended {
      ListedInParts(d.pre, d.head, d.block, d.post, name);
      FoundForm(lines, name);
      RemovedFormOf(lines, name);
      KindInParts(d.pre, d.head, d.block, d.post, RemovedForm(lines, name), name);
      AllAfter(d, |lines|);
    } else if Listed(lines[..n], name) {
      FoundForm(lines[..n], name);
      RemovedFormOf(lines[..n], name);
      LastOfLines(d);
      SeenAfterLast(d, n);
      KindInParts(d.pre, d.head, d.block, d.post[..|d.post| - 1], RemovedForm(lines[..n], name), name);
    } else {
      OnlyLastIsListed(d, name);
    }
  }

  lemma RemovedFormOf(lines: seq<string>, name: string)
    ensures FormOf(RemovedForm(lines, name), name)
  {
    hide HasKind;
  }

  lemma CutShortIs(d: Doc, ended: bool, name: string)
    requires d.BlockList?
    ensures CutShort(d, ended, name) <==> !ended && d.post == [] && ItemAtEnd(d.block, name)
  {
    hide ItemAtEnd;
  }

  lemma AllAfter(d: Doc, seen: nat)
    requires d.BlockList? && seen == |d.Lines()|
    ensures SeenAfter(d, seen) == d.post
  {
  }

  lemma SeenAfterLast(d: Doc, seen: nat)
    requires d.BlockList? && seen < |d.Lines()| && d.post != []
    ensures SeenAfter(d, seen) == d.post[..|d.post| - 1]
  {
  }

  lemma ListedInParts(pre: seq<string>, head: string, block: seq<string>, post: seq<string>, name: string)
    requires Listed(block, name)
    ensures Listed(pre + [head] + block + post, name)
  {
    hide Listed;
    ListedAppend(pre + [head], block, name);
    ListedAppend(pre + [head] + block, post, name);
  }

  lemma KindInParts(pre: seq<string>, head: string, block: seq<string>, post: seq<string>, form: LineKind, name: string)
    requires AtColumnZero(head, SERVICES) && FormOf(form, name)
    ensures HasKind(pre + [head] + block + post, form)
       <==> HasKind(pre, form) || HasKind(block, form) || HasKind(post, form)
  {
    HeadIsOther(head);
    hide HasKind, Classify, AtColumnZero;
    LastKind(pre, head, form);
    HasKindAppend(pre + [head], block, form);
    HasKindAppend(pre + [head] + block, post, form);
  }

  /** The entry is on the last line, which ends the block. */
  lemma OnlyLastIsListed(d: Doc, name: string)
    requires WellFormed(d) && d.BlockList? && Listed(d.block, name) && d.Lines() != []
    requires !Listed(d.Lines()[..|d.Lines()| - 1], name)
    ensures d.post == [] && (HasKind(d.block, Scalar(name)) <==> !ItemAtEnd(d.block, name))
  {
    hide *;
    FitParts(d);
    EmptyListsNothing(name);
    if d.post != [] {
      LastOfLines(d);
      ListedInParts(d.pre, d.head, d.block, d.post[..|d.post| - 1], name);
    } else {
      LastInside(d);
      var (front, last) := (d.block[..|d.block| - 1], d.block[|d.block| - 1]);
      ListedAppend(d.pre + [d.head], front, name);
      ListedLast(front, last, name);
      LastIsItem(front, last, name);
    }
  }

  lemma LastIsItem(front: seq<string>, last: string, name: string)
    requires !Listed(front, name) && Registers(last, name)
    ensures HasKind(front + [last], Scalar(name)) <==> !ItemAtEnd(front + [last], name)
  {
    ListedIsKind(front, name);
    LastKind(front, last, Scalar(name));
    ItemAtEndStep(front, last, name);
    if ItemAtEnd(front, name) {
      ItemAtEndIsListed(front, name);
    }
    hide Classify, HasKind, Listed, ItemAtEnd;
  }

  lemma EntryLeft(d: Doc, ended: bool, name: string)
    requires WellFormed(d) && Accepts(d, Remove(name)) && d.Lines() != []
    ensures var s := SearchOf(d.Lines(), ended, name);
      Left(d.Lines(), s) == StepDoc(d, Remove(name)).Lines()
      <==> !TakesOutside(d, ended, name) && !CutShort(d, ended, name)
  {
    hide *;
    var (lines, s) := (d.Lines(), SearchOf(d.Lines(), ended, name));
    TargetOf(d, name);
    FitParts(d);
    SearchForm(lines, ended, name);
    SeenEnough(lines, ended, name);
    LeftIs(lines, s);
    OutsideParts(d, ended, name);
    CutShortIs(d, ended, name);
    if s.seen == |lines| {
      AllAfter(d, s.seen);
      AllSeen(d, name, s.form);
      if !HasKind(d.pre, s.form) && !HasKind(d.post, s.form) {
        FoundInBlock(d, ended, name);
      }
    } else if d.post != [] {
      SeenAfterLast(d, s.seen);
      LastAfterUnseen(d, name, s.form);
      if !HasKind(d.pre, s.form) && !HasKind(SeenAfter(d, s.seen), s.form) {
        FoundInBlock(d, ended, name);
      }
    } else {
      UnseenInside(d, ended, name);
      LastInsideUnseen(d, name, s.form);
    }
  }

  lemma UnseenInside(d: Doc, ended: bool, name: string)
    requires WellFormed(d) && d.BlockList? && d.block != [] && d.post == [] && d.Lines() != []
    requires SearchOf(d.Lines(), ended, name).seen != |d.Lines()|
    ensures var s := SearchOf(d.Lines(), ended, name);
      && !ended && SeenAfter(d, s.seen) == [] && !HasKind(SeenAfter(d, s.seen), s.form)
      && (HasKind(d.pre, s.form) || HasKind(d.block[..|d.block| - 1], s.form))
  {
    hide *;
    var (lines, s) := (d.Lines(), SearchOf(d.Lines(), ended, name));
    SearchIs(lines, ended, name);
    NothingAfter(d, s.seen);
    NoKindInNone(s.form);
    LastInside(d);
    FitParts(d);
    var front := d.block[..|d.block| - 1];
    RemovedFormOf(lines[..|lines| - 1], name);
    FoundForm(lines[..|lines| - 1], name);
    KindInParts(d.pre, d.head, front, [], s.form, name);
    NothingBehind(d.pre, d.head, front, []);
  }

  lemma NothingAfter(d: Doc, seen: nat)
    requires d.BlockList? && d.post == []
    ensures SeenAfter(d, seen) == []
  {
  }

  /**
   What a removal leaves of the file is the document without the entry, or as it
   was if there is none, exactly unless a line outside the block is dropped, or the
   entry is an object that ends a file without a final newline.
   */
  lemma RemoveIsExact(text: string, d: Doc, name: string, subtype: string)
    requires WellFormed(d) && TerminatedLines(text) == d.Lines() && ValidName(name)
    ensures d.Lines() != []
    ensures var (op, r, ended) := (Remove(name), Persist(text, name, subtype, true), EndsInNewline(text));
      && (TerminatedLines(if r.Ok? then r.value else text) == StepDoc(d, op).Lines()
          <==> !TakesOutside(d, ended, name) && !CutShort(d, ended, name))
      && (!TakesOutside(d, ended, name) && !CutShort(d, ended, name) ==> (r.Ok? <==> Accepts(d, op)))
  {
    hide *;
    var (lines, ended, op) := (d.Lines(), EndsInNewline(text), Remove(name));
    PersistIsRemoval(text, name, subtype);
    RemovalOfText(text, name);
    var s := SearchOf(lines, ended, name);
    SearchForm(lines, ended, name);
    FormIsForm(s.form, name);
    if Accepts(d, op) {
      EntryLeft(d, ended, name);
      TargetOf(d, name);
      TargetIsShorter(d, name);
      LeftDiffers(lines, s);
      SomeHead(d, name);
    } else {
      NotAccepted(d, name);
      NoEntryLeft(d, ended, name);
      BlankIsLeft(lines, s);
    }
  }

  lemma PersistIsRemoval(doc: string, name: string, subtype: string)
    requires ValidName(name)
    ensures Persist(doc, name, subtype, true) == RemoveListItem(doc, name)
  {
  }

  lemma NotAccepted(d: Doc, name: string)
    requires ValidName(name) && !Accepts(d, Remove(name))
    ensures !HasEntry(d.Services(), name) && StepDoc(d, Remove(name)) == d
  {
    hide ValidName, HasEntry, Doc.Services;
  }

  /** A removal that finds nothing leaves the lines as they are. */
  lemma LeftDiffers(lines: seq<string>, s: Search)
    requires s.seen <= |lines| && ItemForm(s.form)
    ensures HasKind(lines[..s.seen], s.form) <==> Left(lines, s) != lines
  {
    DropsNothing(lines[..s.seen], s.form);
    SameFront(Drop(lines[..s.seen], s.form), lines[..s.seen], lines[s.seen..]);
    hide HasKind, Drop;
    assert lines[..s.seen] + lines[s.seen..] == lines;
  }

  lemma BlankIsLeft(lines: seq<string>, s: Search)
    requires s.seen <= |lines| && ItemForm(s.form) && lines != []
    ensures Left(lines, s) == [] ==> lines != [[]]
  {
    EmptyLineIsOther([]);
    DropsNothing([[]], s.form);
    DropsNothing([], s.form);
    NoKindInNone(s.form);
    hide Classify, Drop;
    if lines == [[]] {
      assert lines[..s.seen] == if s.seen == 0 then [] else [[]];
      assert !HasKind([[]], s.form);
    }
  }

  lemma TargetIsShorter(d: Doc, name: string)
    requires WellFormed(d) && Accepts(d, Remove(name))
    ensures StepDoc(d, Remove(name)).Lines() != d.Lines()
  {
    hide *;
    TargetOf(d, name);
    FitParts(d);
    NotInBlock(d.block, name);
    RegroupParts(d.pre, d.head, RemoveFromBlock(d.block, name), d.post);
    RegroupParts(d.pre, d.head, d.block, d.post);
    SameBehind(d.pre + [d.head], RemoveFromBlock(d.block, name) + d.post, d.block + d.post);
    SameFront(RemoveFromBlock(d.block, name), d.block, d.post);
  }

  lemma NotInBlock(block: seq<string>, name: string)
    requires Listed(block, name)
    ensures RemoveFromBlock(block, name) != block
  {
    ListedIsKind(block, name);
    DropsNothing(block, Named(name));
    DropsNothing(block, Scalar(name));
    hide HasKind, Listed, RemoveObjects, RemoveScalars;
  }

  lemma SomeHead(d: Doc, name: string)
    requires WellFormed(d) && Accepts(d, Remove(name))
    ensures StepDoc(d, Remove(name)).Lines() != [] && StepDoc(d, Remove(name)).Lines() != [[]]
  {
    TargetOf(d, name);
    HeadIsNotEmpty(d);
    hide RemoveFromBlock, StepDoc, Doc.Lines, WellFormed;
    var lines := d.pre + [d.head] + RemoveFromBlock(d.block, name) + d.post;
    assert lines[|d.pre|] == d.head;
  }

  lemma HeadIsNotEmpty(d: Doc)
    requires WellFormed(d) && d.BlockList?
    ensures d.head != []
  {
    KeyStartsWithS(d.head);
  }

  // ----- Items that are cut short, and one with a blank line inside -----

  lemma ObjectLine(name: string)
    requires ValidName(name)
    ensures var line := "  - name: " + name; Classify(line) == Named(name) && '\n' !in line && line != []
  {
    ObjectEntry(name);
    NameIsOneLine(name);
    hide Classify, ValidName;
  }

  /** An object item whose only line ends the file is refused as unknown. */
  lemma NamedLastLineIsNotFound(pre: seq<string>, name: string)
    requires ValidName(name) && !Listed(pre, name) && forall i :: 0 <= i < |pre| ==> '\n' !in pre[i]
    ensures var lines := pre + ["  - name: " + name];
      Listed(lines, name) && RemoveListItem(Join(lines, "\n"), name).Err?
  {
    hide *;
    var line := "  - name: " + name;
    var lines := pre + [line];
    ObjectLine(name);
    LinesOfJoin(pre, line);
    assert lines[..|lines| - 1] == pre && lines[|lines| - 1] == line;
    UnendedRemoval(Join(lines, "\n"), name);
    NamedRegisters(line, name);
    ListedLast(pre, line, name);
  }

  lemma NamedRegisters(line: string, name: string)
    requires Classify(line) == Named(name)
    ensures Registers(line, name)
  {
    hide Classify;
  }

  lemma LastLineIsLeft(pre: seq<string>, item: string, line: string, name: string)
    requires Classify(item) == Named(name) && !Listed(pre, name) && '\n' !in item && '\n' !in line && line != []
    requires forall i :: 0 <= i < |pre| ==> '\n' !in pre[i]
    ensures RemoveListItem(Join(pre + [item, line], "\n"), name) == Ok(Join(pre + [line], "\n"))
  {
    hide *;
    var (front, lines) := (pre + [item], pre + [item, line]);
    assert lines == front + [line] && lines[..|lines| - 1] == front && lines[|lines| - 1] == line;
    LinesOfJoin(front, line);
    UnendedRemoval(Join(lines, "\n"), name);
    NamedRegisters(item, name);
    ListedLast(pre, item, name);
    LastKind(pre, item, Named(name));
    NamedForm(front, name);
    ItemIsDropped(pre, item, name);
  }

  lemma NamedForm(lines: seq<string>, name: string)
    requires HasKind(lines, Named(name))
    ensures RemovedForm(lines, name) == Named(name)
    ensures Drop(lines, Named(name)) == RemoveObjects(lines, name).kept
  {
    hide HasKind, RemoveObjects;
  }

  /** Of one with a type, the removal leaves the line of the type. */
  lemma TypeIsLeftBehind(pre: seq<string>, name: string, subtype: string)
    requires ValidName(name) && '\n' !in subtype && !Listed(pre, name)
    requires forall i :: 0 <= i < |pre| ==> '\n' !in pre[i]
    ensures var (item, line) := ("  - name: " + name, "    subtype: " + subtype);
      RemoveListItem(Join(pre + [item, line], "\n"), name) == Ok(Join(pre + [line], "\n"))
  {
    hide *;
    ObjectLine(name);
    TypeLine(subtype);
    LastLineIsLeft(pre, "  - name: " + name, "    subtype: " + subtype, name);
  }

  lemma TypeLine(subtype: string)
    ensures var line := "    subtype: " + subtype;
      line != [] && Classify(line).Continuation? && ('\n' !in subtype ==> '\n' !in line)
  {
    SubtypeLine(subtype);
    hide Classify;
  }

  lemma ItemIsDropped(pre: seq<string>, line: string, name: string)
    requires !Listed(pre, name) && Classify(line) == Named(name)
    ensures RemoveObjects(pre + [line], name) == Removal(pre, true)
  {
    NothingToRemove(pre, name);
    hide Classify;
    assert (pre + [line])[..|pre|] == pre;
  }

  lemma BlankEndsDropping(pre: seq<string>, item: string, rest: seq<string>, name: string)
    requires Classify(item) == Named(name) && !Listed(pre, name) && !Listed(rest, name)
    requires rest != [] && !Continues(rest[0])
    ensures RemoveObjects(pre + [item] + rest, name).kept == pre + rest
    ensures HasKind(pre + [item] + rest, Named(name))
  {
    hide *;
    ItemIsDropped(pre, item, name);
    RemoveObjectsAppend(pre + [item], rest, name);
    NothingToRemove(rest, name);
    LastKind(pre, item, Named(name));
    HasKindAppend(pre + [item], rest, Named(name));
  }

  /** A blank line between an object item and its type ends the item for a removal, which leaves the type behind. */
  lemma BlankLineEndsItem(pre: seq<string>, blank: string, post: seq<string>, name: string, subtype: string)
    requires ValidName(name) && '\n' !in subtype && IsBlank(blank)
    requires !Listed(pre, name) && !Listed(post, name)
    requires forall i :: 0 <= i < |pre + [blank] + post| ==> '\n' !in (pre + [blank] + post)[i]
    ensures var (item, line) := ("  - name: " + name, "    subtype: " + subtype);
      RemoveListItem(TextOf(pre + [item] + ([blank, line] + post)), name) == Ok(TextOf(pre + ([blank, line] + post)))
  {
    hide *;
    ObjectLine(name);
    TypeLine(subtype);
    BlankIsOther(blank);
    InnerLineIsLeft(pre, "  - name: " + name, blank, "    subtype: " + subtype, post, name);
  }

  lemma InnerLineIsLeft(pre: seq<string>, item: string, blank: string, line: string, post: seq<string>, name: string)
    requires Classify(item) == Named(name) && Classify(blank) == Other && Classify(line).Continuation?
    requires !Listed(pre, name) && !Listed(post, name) && '\n' !in item && '\n' !in line
    requires forall i :: 0 <= i < |pre + [blank] + post| ==> '\n' !in (pre + [blank] + post)[i]
    ensures RemoveListItem(TextOf(pre + [item] + ([blank, line] + post)), name)
         == Ok(TextOf(pre + ([blank, line] + post)))
  {
    hide *;
    TwoUnlisted(blank, line, post, name);
    BlankEndsDropping(pre, item, [blank, line] + post, name);
    SingleWithItem(pre, item, blank, line, post);
    var lines := pre + [item] + ([blank, line] + post);
    LinesOfText(lines);
    SomeItem(pre, item, [blank, line] + post);
    NamedForm(lines, name);
    EndedRemoval(TextOf(lines), name);
  }

  lemma SomeItem(pre: seq<string>, item: string, rest: seq<string>)
    ensures pre + [item] + rest != []
  {
    assert (pre + [item] + rest)[|pre|] == item;
  }

  lemma SingleWithItem(pre: seq<string>, item: string, blank: string, line: string, post: seq<string>)
    requires '\n' !in item && '\n' !in line
    requires forall i :: 0 <= i < |pre + [blank] + post| ==> '\n' !in (pre + [blank] + post)[i]
    ensures var all := pre + [item] + ([blank, line] + post); forall i :: 0 <= i < |all| ==> '\n' !in all[i]
  {
    var some := pre + [blank] + post;
    assert forall i :: 0 <= i < |pre| ==> pre[i] == some[i];
    assert blank == some[|pre|] && forall i :: 0 <= i < |post| ==> post[i] == some[|pre| + 1 + i];
  }

  lemma TwoUnlisted(a: string, b: string, post: seq<string>, name: string)
    requires Classify(a) == Other && Classify(b).Continuation? && !Listed(post, name)
    ensures !Listed([a, b] + post, name) && !Continues(([a, b] + post)[0])
  {
    hide Classify;
    assert forall i :: 2 <= i < |[a, b] + post| ==> ([a, b] + post)[i] == post[i - 2];
  }
}
