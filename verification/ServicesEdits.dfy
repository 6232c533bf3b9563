/** One call of PersistService as an edit of a document: config.go. */
module ServicesEdits {
  import opened Results
  import opened Text
  import opened YamlScalars
  import opened YamlExpand
  import opened ServicesText
  import opened ServicesList
  import opened ServicesDoc

  // ----- One edit -----

  datatype Op = Add(name: string, subtype: string) | Remove(name: string)

  /** What is added may be no item of any list; what is removed must be an entry. */
  predicate Accepts(d: Doc, op: Op) {
    ValidName(op.name) &&
    match op
    case Add(name, _) => !HasEntry(d.Services(), name) && FreeOutside(d, name)
    case Remove(name) => HasEntry(d.Services(), name)
  }

  function RemoveFromBlock(block: seq<string>, name: string): seq<string> {
    if HasKind(block, Named(name)) then RemoveObjects(block, name).kept else RemoveScalars(block, name)
  }

  /** The document after an accepted edit. */
  function Edited(d: Doc, op: Op): Doc {
    match op
    case Add(name, subtype) =>
      var entry := EntryLines(name, subtype);
      (match d
       case NoList(pre) => BlockList(pre, SERVICES + ":", entry, [])
       case EmptyList(pre, _, post) =>
         var rest := SkipBlankLines(post);
         BlockList(pre, SERVICES + ":", if rest == [] then entry else entry + [[]], rest)
       case BlockList(pre, head, block, post) => BlockList(pre, head, block + entry, post))
    case Remove(name) =>
      if d.BlockList? then d.(block := RemoveFromBlock(d.block, name)) else d
  }

  /** The document after a call: a refused edit leaves it alone. */
  function StepDoc(d: Doc, op: Op): Doc {
    if Accepts(d, op) then Edited(d, op) else d
  }

  /** The abstract list: append a new entry, or drop one. */
  function EditedList(es: seq<Service>, op: Op): seq<Service> {
    match op
    case Add(name, subtype) => es + [Service(name, subtype)]
    case Remove(name) => Without(es, name)
  }

  /** A type that its line can hold, and hold as it is. */
  predicate Fits(subtype: string) {
    '\n' !in subtype && TrimSpace(subtype) == subtype
  }

  predicate Clean(op: Op) {
    op.Add? ==> Fits(op.subtype)
  }

  lemma WrittenHead()
    ensures var head := SERVICES + ":";
      '\n' !in head && AtColumnZero(head, SERVICES) && BlockKey(head, SERVICES) && !InlineEmpty(head, SERVICES)
  {
    var head := SERVICES + ":";
    assert head[0] == 's' && |SERVICES| == 8;
    assert SkipBlanks(head) == head && head[8..] == ":" && SkipBlanks(":") == ":" && ":"[1..] == [];
  }

  /** The empty list as it is commonly written. */
  lemma WrittenEmptyList()
    ensures var head := SERVICES + ": []"; InlineEmpty(head, SERVICES) && AtColumnZero(head, SERVICES)
  {
    var head := SERVICES + ": []";
    assert head[0] == 's' && |SERVICES| == 8;
    assert SkipBlanks(head) == head && head[8..] == ": []" && SkipBlanks(": []") == ": []" && ": []"[1..] == " []";
    assert " []"[1..] == "[]" && SkipSpaces(" []") == "[]" && DropSpaces("[]") == "[]" && "[]"[1..1] == [];
  }

  lemma KeyStartsWithS(line: string)
    requires AtColumnZero(line, SERVICES)
    ensures line[0] == 's' && line[1] == 'e' && |line| >= 8
  {
    assert |SERVICES| == 8 && SERVICES[0] == 's' && SERVICES[1] == 'e';
    assert line[0] == SERVICES[0] && line[1] == SERVICES[1];
  }

  lemma OtherLineIsNoKey(line: string)
    requires var l := SkipBlanks(line); |l| >= 2 && !(l[0] == 's' && l[1] == 'e')
    ensures NotKey(line)
  {
    if AtColumnZero(SkipBlanks(line), SERVICES) {
      KeyStartsWithS(SkipBlanks(line));
    }
  }

  lemma HeadIsOther(head: string)
    requires AtColumnZero(head, SERVICES)
    ensures Classify(head) == Other && !InBlock(head)
  {
    KeyStartsWithS(head);
    hide AtColumnZero;
  }

  /** An indented line that is no key of the list. */
  predicate EntryLineFits(line: string) {
    '\n' !in line && NotKey(line) && InBlock(line)
  }

  lemma ItemLineFits(body: string)
    requires '\n' !in body && |body| >= 2 && body[0] == '-'
    ensures EntryLineFits("  " + body)
  {
    SkipTwoBlanks(body);
    hide SkipBlanks;
    OtherLineIsNoKey("  " + body);
    hide NotKey;
  }

  lemma SubtypeLineFits(body: string)
    requires '\n' !in body && |body| >= 2 && body[0] == 's' && body[1] == 'u'
    ensures EntryLineFits("    " + body)
  {
    SkipFourBlanks(body);
    hide SkipBlanks;
    OtherLineIsNoKey("    " + body);
    hide NotKey;
  }

  lemma NameIsOneLine(name: string)
    requires ValidName(name)
    ensures '\n' !in name && '$' !in name
  {
    assert forall i :: 0 <= i < |name| ==> IsNameChar(name[i]);
  }

  /** The lines of a written entry are indented, single and no keys of the list. */
  lemma EntryLinesFit(name: string, subtype: string)
    requires ValidName(name) && '\n' !in subtype
    ensures forall i :: 0 <= i < |EntryLines(name, subtype)| ==> EntryLineFits(EntryLines(name, subtype)[i])
  {
    NameIsOneLine(name);
    hide ValidName, EntryLineFits;
    if subtype != [] {
      ItemLineFits("- name: " + name);
      SubtypeLineFits("subtype: " + subtype);
      assert "  " + ("- name: " + name) == "  - name: " + name;
      assert "    " + ("subtype: " + subtype) == "    subtype: " + subtype;
    } else {
      ItemLineFits("- " + name);
      assert "  " + ("- " + name) == "  - " + name;
    }
  }

  lemma ReadOneMore(block: seq<string>, line: string)
    ensures Read(block + [line]) == Read(block).AfterLine(Classify(line))
    ensures SubtypesBelong(block + [line])
       <==> SubtypesBelong(block)
            && (Classify(line).Continuation? && Classify(line).subtype.Some? ==> Read(block).inside)
  {
    hide Classify, Reading.AfterLine;
    assert (block + [line])[..|block|] == block;
  }

  lemma ObjectIsRead(block: seq<string>, l: string, k: string, name: string, subtype: string)
    requires Classify(l) == Named(name) && Classify(k) == Continuation(Some(subtype))
    ensures Entries(block + [l, k]) == Entries(block) + [Service(name, subtype)]
    ensures SubtypesBelong(block) ==> SubtypesBelong(block + [l, k])
  {
    hide Classify, Read, SubtypesBelong;
    ReadOneMore(block, l);
    ReadOneMore(block + [l], k);
    assert block + [l] + [k] == block + [l, k];
  }

  lemma ScalarIsRead(block: seq<string>, l: string, name: string)
    requires Classify(l) == Scalar(name)
    ensures Entries(block + [l]) == Entries(block) + [Service(name, "")]
    ensures SubtypesBelong(block) ==> SubtypesBelong(block + [l])
  {
    hide Classify, Read, SubtypesBelong;
    ReadOneMore(block, l);
  }

  lemma EntryLinesAre(name: string, subtype: string)
    ensures EntryLines(name, subtype)
         == if subtype == "" then ["  - " + name] else ["  - name: " + name, "    subtype: " + subtype]
  {
  }

  /** A written entry reads back as the service it was written for, its type without the white space around it. */
  lemma EntryIsRead(block: seq<string>, name: string, subtype: string)
    requires ValidName(name)
    ensures Entries(block + EntryLines(name, subtype)) == Entries(block) + [Service(name, TrimSpace(subtype))]
    ensures SubtypesBelong(block) ==> SubtypesBelong(block + EntryLines(name, subtype))
  {
    hide *;
    EntryLinesAre(name, subtype);
    TrimOfNothing();
    if subtype != "" {
      ObjectEntry(name);
      SubtypeLine(subtype);
      ObjectIsRead(block, "  - name: " + name, "    subtype: " + subtype, name, TrimSpace(subtype));
    } else {
      ScalarEntry(name);
      ScalarIsRead(block, "  - " + name, name);
    }
  }

  lemma TrimOfNothing()
    ensures TrimSpace("") == ""
  {
  }

  lemma EmptyLineIsOther(block: seq<string>)
    ensures Classify([]) == Other && NotKey([]) && InBlock([]) && IsBlank([])
    ensures Entries(block + [[]]) == Entries(block) && (SubtypesBelong(block) ==> SubtypesBelong(block + [[]]))
  {
    ReadOneMore(block, []);
  }

  // ----- Items and forms -----

  lemma ListedAppend(a: seq<string>, b: seq<string>, item: string)
    ensures Listed(a + b, item) <==> Listed(a, item) || Listed(b, item)
  {
    hide Registers;
    if Listed(a, item) {
      var i :| 0 <= i < |a| && Registers(a[i], item);
      assert Registers((a + b)[i], item);
    }
    if Listed(b, item) {
      var i :| 0 <= i < |b| && Registers(b[i], item);
      assert Registers((a + b)[|a| + i], item);
    }
  }

  lemma EmptyListsNothing(item: string)
    ensures !Listed([], item)
  {
  }

  lemma NoEntryInNone(item: string)
    ensures !HasEntry([], item)
  {
  }

  lemma HasKindAppend(a: seq<string>, b: seq<string>, kind: LineKind)
    ensures HasKind(a + b, kind) <==> HasKind(a, kind) || HasKind(b, kind)
  {
    hide Classify;
    if HasKind(a, kind) {
      var i :| 0 <= i < |a| && Classify(a[i]) == kind;
      assert Classify((a + b)[i]) == kind;
    }
    if HasKind(b, kind) {
      var i :| 0 <= i < |b| && Classify(b[i]) == kind;
      assert Classify((a + b)[|a| + i]) == kind;
    }
  }

  lemma LastKind(lines: seq<string>, line: string, kind: LineKind)
    ensures HasKind(lines + [line], kind) <==> HasKind(lines, kind) || Classify(line) == kind
  {
    HasKindAppend(lines, [line], kind);
    hide Classify;
    assert HasKind([line], kind) <==> Classify(line) == kind by {
      assert [line][0] == line;
    }
  }

  lemma ListedIsKind(lines: seq<string>, item: string)
    ensures Listed(lines, item) <==> HasKind(lines, Named(item)) || HasKind(lines, Scalar(item))
  {
    hide Classify;
    if Listed(lines, item) {
      var i :| 0 <= i < |lines| && Registers(lines[i], item);
      assert Classify(lines[i]) == Named(item) || Classify(lines[i]) == Scalar(item);
    }
    if HasKind(lines, Named(item)) {
      var i :| 0 <= i < |lines| && Classify(lines[i]) == Named(item);
      assert Registers(lines[i], item);
    }
    if HasKind(lines, Scalar(item)) {
      var i :| 0 <= i < |lines| && Classify(lines[i]) == Scalar(item);
      assert Registers(lines[i], item);
    }
  }

  lemma EmptyHasNoKind(item: string)
    ensures !HasKind([], Named(item))
  {
  }

  // ----- Edits keep documents well-formed and edit their entries -----

  lemma DistinctBefore(r: Reading, kind: LineKind)
    requires r.inside ==> r.entries != []
    ensures Distinct(r.AfterLine(kind).entries) ==> Distinct(r.entries)
  {
    var after := r.AfterLine(kind).entries;
    assert forall i :: 0 <= i < |r.entries| ==> after[i].name == r.entries[i].name;
  }

  lemma EntryTwice(es: seq<Service>, name: string)
    requires HasEntry(es, name)
    ensures !Distinct(es + [Service(name, "")])
  {
    var all := es + [Service(name, "")];
    var i :| 0 <= i < |es| && es[i].name == name;
    assert all[i].name == all[|es|].name;
  }

  /** A name without a second entry is not registered in both forms. */
  lemma {:induction false} OneFormPerName(block: seq<string>, item: string)
    requires Distinct(Entries(block))
    ensures !(HasKind(block, Named(item)) && HasKind(block, Scalar(item)))
  {
    hide Classify, HasKind, Listed, Distinct, Reading.AfterLine;
    if block == [] {
      EmptyHasNoKind(item);
    } else {
      var n := |block| - 1;
      var (before, kind) := (block[..n], Classify(block[n]));
      DistinctBefore(Read(before), kind);
      OneFormPerName(before, item);
      assert before + [block[n]] == block;
      LastKind(before, block[n], Named(item));
      LastKind(before, block[n], Scalar(item));
      ListedIsKind(before, item);
      ListedIsEntry(before, item);
      if HasEntry(Entries(before), item) {
        EntryTwice(Entries(before), item);
      }
      ItemEntries(Read(before), item);
    }
  }

  lemma ItemEntries(r: Reading, item: string)
    ensures r.AfterLine(Named(item)).entries == r.entries + [Service(item, "")]
    ensures r.AfterLine(Scalar(item)).entries == r.entries + [Service(item, "")]
  {
  }

  lemma {:induction false} WithoutIsDistinct(es: seq<Service>, name: string)
    requires Distinct(es)
    ensures Distinct(Without(es, name))
  {
    if es != [] {
      var n := |es| - 1;
      WithoutIsDistinct(es[..n], name);
      assert forall i :: 0 <= i < n ==> es[i].name != es[n].name;
    }
  }

  lemma {:induction false} KeptLinesAreOld(lines: seq<string>, item: string)
    ensures forall l :: l in RemoveObjects(lines, item).kept ==> l in lines
    ensures forall l :: l in RemoveScalars(lines, item) ==> l in lines
  {
    hide Classify;
    if lines != [] {
      var n := |lines| - 1;
      KeptLinesAreOld(lines[..n], item);
      assert forall l :: l in lines[..n] ==> l in lines;
    }
  }

  /** A removal drops exactly the entry of the name from the block. */
  lemma RemovedEntries(block: seq<string>, item: string)
    requires SubtypesBelong(block) && Distinct(Entries(block))
    ensures Entries(RemoveFromBlock(block, item)) == Without(Entries(block), item)
    ensures SubtypesBelong(RemoveFromBlock(block, item))
    ensures forall l :: l in RemoveFromBlock(block, item) ==> l in block
  {
    OneFormPerName(block, item);
    KeptLinesAreOld(block, item);
    hide HasKind, SubtypesBelong, RemoveObjects, RemoveScalars, Read, Without;
    if HasKind(block, Named(item)) {
      EntriesWithoutObjects(block, item);
      SubtypesStillBelong(block, item);
    } else {
      EntriesWithoutScalars(block, item);
    }
  }

  lemma AppendedIsDistinct(es: seq<Service>, s: Service)
    requires Distinct(es) && !HasEntry(es, s.name)
    ensures Distinct(es + [s])
  {
    assert forall i :: 0 <= i < |es| ==> es[i].name != s.name;
  }

  lemma AddedServices(d: Doc, name: string, subtype: string)
    requires Accepts(d, Add(name, subtype)) && TrimSpace(subtype) == subtype
    requires d.BlockList? ==> SubtypesBelong(d.block) && Distinct(Entries(d.block))
    ensures var e := Edited(d, Add(name, subtype));
      && e.BlockList? && Entries(e.block) == d.Services() + [Service(name, subtype)]
      && SubtypesBelong(e.block) && Distinct(Entries(e.block))
  {
    hide *;
    var entry := EntryLines(name, subtype);
    var block := if d.BlockList? then d.block else [];
    BlockOfAdded(d, name, subtype);
    NothingIsRead();
    EntryIsRead(block, name, subtype);
    EmptyLineIsOther(block + entry);
    AppendedIsDistinct(Entries(block), Service(name, subtype));
  }

  lemma NothingIsRead()
    ensures Entries([]) == [] && SubtypesBelong([]) && Distinct([])
  {
  }

  lemma BlockOfAdded(d: Doc, name: string, subtype: string)
    requires Accepts(d, Add(name, subtype))
    ensures ValidName(name) && !HasEntry(d.Services(), name)
    ensures var (block, e) := (if d.BlockList? then d.block else [], Edited(d, Add(name, subtype)));
      && e.BlockList? && d.Services() == (if d.BlockList? then Entries(block) else [])
      && (e.block == block + EntryLines(name, subtype) || e.block == block + EntryLines(name, subtype) + [[]])
  {
    hide EntryLines, SkipBlankLines, SERVICES, Entries, HasEntry, ValidName, FreeOutside;
    assert [] + EntryLines(name, subtype) == EntryLines(name, subtype);
  }

  /** The abstract effect of an accepted edit. */
  lemma EditedServices(d: Doc, op: Op)
    requires WellFormed(d) && Clean(op) && Accepts(d, op)
    ensures Edited(d, op).BlockList?
    ensures Edited(d, op).Services() == EditedList(d.Services(), op)
    ensures SubtypesBelong(Edited(d, op).block) && Distinct(Edited(d, op).Services())
  {
    hide Entries, SubtypesBelong, Distinct, RemoveFromBlock, HasEntry, EntryLines, ValidName,
         SkipBlankLines, SERVICES, Plain, AtColumnZero, BlockKey, InlineEmpty, InBlock, Without;
    match op
    case Add(name, subtype) =>
      AddedServices(d, name, subtype);
    case Remove(name) =>
      NoEntryInNone(name);
      RemovedEntries(d.block, name);
      WithoutIsDistinct(d.Services(), name);
  }

  ghost predicate BlockFits(block: seq<string>) {
    forall i :: 0 <= i < |block| ==> '\n' !in block[i] && NotKey(block[i]) && InBlock(block[i])
  }

  lemma BlockFitsAppend(a: seq<string>, b: seq<string>)
    requires BlockFits(a) && BlockFits(b)
    ensures BlockFits(a + b)
  {
    hide NotKey, InBlock;
  }

  lemma AddedBlockFits(name: string, subtype: string)
    requires ValidName(name) && '\n' !in subtype
    ensures BlockFits(EntryLines(name, subtype)) && BlockFits(EntryLines(name, subtype) + [[]])
  {
    hide *;
    EntryLinesFit(name, subtype);
    FittingBlock(EntryLines(name, subtype));
    EmptyBlockFits();
    BlockFitsAppend(EntryLines(name, subtype), [[]]);
  }

  lemma FittingBlock(lines: seq<string>)
    requires forall i :: 0 <= i < |lines| ==> EntryLineFits(lines[i])
    ensures BlockFits(lines)
  {
    hide NotKey, InBlock;
  }

  lemma EmptyBlockFits()
    ensures BlockFits([[]])
  {
    EmptyLineIsOther([]);
    hide NotKey, InBlock;
  }

  lemma RemovedBlockFits(block: seq<string>, item: string)
    requires BlockFits(block)
    ensures BlockFits(RemoveFromBlock(block, item))
  {
    KeptLinesAreOld(block, item);
    var kept := RemoveFromBlock(block, item);
    assert forall l :: l in kept ==> l in block;
    hide NotKey, InBlock, RemoveFromBlock;
    forall i | 0 <= i < |kept| ensures '\n' !in kept[i] && NotKey(kept[i]) && InBlock(kept[i]) {
      assert kept[i] in block;
    }
  }

  lemma BlockIsWellFormed(d: Doc)
    requires d.BlockList? && Plain(d.pre) && Plain(d.post) && (d.post != [] ==> !InBlock(d.post[0]))
    requires '\n' !in d.head && AtColumnZero(d.head, SERVICES)
    requires BlockKey(d.head, SERVICES) && !InlineEmpty(d.head, SERVICES)
    requires BlockFits(d.block) && SubtypesBelong(d.block) && Distinct(Entries(d.block))
    ensures WellFormed(d)
  {
    hide NotKey, InBlock, SubtypesBelong, Distinct, Entries, AtColumnZero, BlockKey, InlineEmpty, SERVICES;
  }

  lemma PlainAtEnd(lines: seq<string>)
    requires Plain(lines)
    ensures Plain(SkipBlankLines(lines))
  {
    hide NotKey, IsBlank;
    var rest := SkipBlankLines(lines);
    forall i | 0 <= i < |rest| ensures '\n' !in rest[i] && NotKey(rest[i]) {
      assert rest[i] == lines[|lines| - |rest| + i];
    }
  }

  lemma AddedIsWellFormed(d: Doc, op: Op)
    requires WellFormed(d) && Clean(op) && op.Add? && Accepts(d, op)
    ensures WellFormed(Edited(d, op))
  {
    EditedServices(d, op);
    WrittenHead();
    AddedBlockFits(op.name, op.subtype);
    match d {
      case NoList(_) =>
      case EmptyList(_, _, post) => PlainAtEnd(post);
      case BlockList(_, _, block, _) =>
        assert BlockFits(block);
        BlockFitsAppend(block, EntryLines(op.name, op.subtype));
    }
    hide NotKey, InBlock, EntryLines, SubtypesBelong, Distinct, Entries, AtColumnZero, BlockKey, InlineEmpty,
         SERVICES, Accepts, Clean, SkipBlankLines, BlockFits;
    BlockIsWellFormed(Edited(d, op));
  }

  lemma RemovedIsWellFormed(d: Doc, op: Op)
    requires WellFormed(d) && Clean(op) && op.Remove? && Accepts(d, op)
    ensures WellFormed(Edited(d, op))
  {
    hide *;
    EditedServices(d, op);
    BlockAfterRemoval(d, op.name);
    RemovedBlockFits(d.block, op.name);
    BlockIsWellFormed(Edited(d, op));
  }

  lemma BlockAfterRemoval(d: Doc, name: string)
    requires WellFormed(d) && Accepts(d, Remove(name))
    ensures d.BlockList? && BlockFits(d.block)
    ensures Plain(d.pre) && Plain(d.post) && (d.post != [] ==> !InBlock(d.post[0]))
    ensures '\n' !in d.head && AtColumnZero(d.head, SERVICES)
    ensures BlockKey(d.head, SERVICES) && !InlineEmpty(d.head, SERVICES)
    ensures Edited(d, Remove(name)) == BlockList(d.pre, d.head, RemoveFromBlock(d.block, name), d.post)
    ensures Edited(d, Remove(name)).Services() == Entries(Edited(d, Remove(name)).block)
  {
    NoEntryInNone(name);
    hide NotKey, InBlock, RemoveFromBlock, SubtypesBelong, Distinct, Entries, AtColumnZero, BlockKey, InlineEmpty,
         HasEntry;
  }

  /** An accepted edit leaves a well-formed document. */
  lemma EditedIsWellFormed(d: Doc, op: Op)
    requires WellFormed(d) && Clean(op) && Accepts(d, op)
    ensures WellFormed(Edited(d, op))
  {
    hide WellFormed, Clean, Accepts, Edited;
    if op.Add? {
      AddedIsWellFormed(d, op);
    } else {
      RemovedIsWellFormed(d, op);
    }
  }

  // ----- Lines outside the list -----

  /** What stands behind the first entry when `services: []` becomes a block, for the lines that stood behind it. */
  function ExpandedTail(post: seq<string>): seq<string> {
    var rest := SkipBlankLines(post);
    if rest == [] then [] else [[]] + rest
  }

  /**
   The first entry of a `services: []` leaves the lines after it as they are
   exactly when there are none, or one empty line before a line with text: blank
   lines are dropped, and an empty one is put in where none stood.
   */
  lemma ExpansionKeepsTail(d: Doc, name: string, subtype: string)
    requires d.EmptyList?
    ensures Edited(d, Add(name, subtype)).Lines()
         == d.pre + [SERVICES + ":"] + EntryLines(name, subtype) + ExpandedTail(d.post)
    ensures ExpandedTail(d.post) == d.post
       <==> d.post == [] || (|d.post| >= 2 && d.post[0] == [] && !IsBlank(d.post[1]))
  {
    hide EntryLines, SERVICES;
    TailKept(d.post);
    hide ExpandedTail;
    Regroup(d.pre, [SERVICES + ":"], EntryLines(name, subtype));
  }

  lemma TailKept(post: seq<string>)
    ensures ExpandedTail(post) == post <==> post == [] || (|post| >= 2 && post[0] == [] && !IsBlank(post[1]))
  {
    EmptyLineIsOther([]);
    hide IsBlank;
    var (rest, tail) := (SkipBlankLines(post), ExpandedTail(post));
    TextAfterBlanks(post);
    if post != [] {
      SkipFirst(post);
      hide SkipBlankLines;
      if !IsBlank(post[0]) {
        assert |tail| == |post| + 1;
      } else if |post| >= 2 && !IsBlank(post[1]) {
        assert tail == [[]] + post[1..] && post == [post[0]] + post[1..];
        assert tail[0] == [];
      } else if rest != [] {
        assert |rest| < |post| - 1;
      }
    }
  }

  lemma SkipFirst(post: seq<string>)
    requires post != []
    ensures !IsBlank(post[0]) ==> SkipBlankLines(post) == post
    ensures IsBlank(post[0]) && |post| >= 2 && !IsBlank(post[1]) ==> SkipBlankLines(post) == post[1..]
    ensures IsBlank(post[0]) && (|post| >= 2 ==> IsBlank(post[1])) ==>
      SkipBlankLines(post) == [] || |SkipBlankLines(post)| < |post| - 1
  {
    hide IsBlank;
    if |post| >= 2 {
      assert !IsBlank(post[1]) ==> SkipBlankLines(post[1..]) == post[1..];
      assert IsBlank(post[1]) ==> SkipBlankLines(post[1..]) == SkipBlankLines(post[1..][1..]);
    }
  }

  lemma {:induction false} TextAfterBlanks(lines: seq<string>)
    ensures SkipBlankLines(lines) == [] || !IsBlank(SkipBlankLines(lines)[0])
  {
    hide IsBlank;
    if lines != [] && IsBlank(lines[0]) {
      TextAfterBlanks(lines[1..]);
    }
  }

  /**
   The lines outside the list and its key stay as they are, all of them; only
   the blank lines right after a `services: []` go when it becomes a block.
   */
  predicate SameOutside(d: Doc, e: Doc) {
    || e == d
    || (e.BlockList? && e.pre == d.pre && (d.BlockList? ==> e.head == d.head)
        && e.post == if d.EmptyList? then SkipBlankLines(d.post) else d.After())
  }

  lemma BlankIsOther(line: string)
    requires IsBlank(line)
    ensures Classify(line) == Other
  {
    BlankStart(line);
    hide RegexSpace;
  }

  lemma {:induction false} BlankStart(line: string)
    requires IsBlank(line)
    ensures SkipBlanks(line) == [] || (RegexSpace(SkipBlanks(line)[0]) && SkipBlanks(line)[0] != '-')
  {
    if line != [] && (line[0] == ' ' || line[0] == '\t') {
      BlankStart(line[1..]);
    }
  }

  /** Blank lines register nothing. */
  lemma {:induction false} ListedAfterBlanks(lines: seq<string>, item: string)
    ensures Listed(SkipBlankLines(lines), item) <==> Listed(lines, item)
  {
    hide Listed, IsBlank;
    if lines != [] && IsBlank(lines[0]) {
      ListedAfterBlanks(lines[1..], item);
      BlankIsUnlisted(lines[0], lines[1..], item);
      assert [lines[0]] + lines[1..] == lines;
    }
  }

  lemma BlankIsUnlisted(line: string, rest: seq<string>, item: string)
    requires IsBlank(line)
    ensures Listed([line] + rest, item) <==> Listed(rest, item)
  {
    BlankIsOther(line);
    hide Classify, IsBlank;
    ListedAppend([line], rest, item);
    assert !Registers(line, item);
  }

  lemma EditedKeepsOutside(d: Doc, op: Op)
    requires !d.EmptyList? || op.Add?
    ensures SameOutside(d, Edited(d, op))
    ensures !d.EmptyList? ==> Edited(d, op).pre == d.pre && Edited(d, op).After() == d.After()
    ensures forall n :: FreeOutside(Edited(d, op), n) <==> FreeOutside(d, n)
  {
    hide EntryLines, RemoveFromBlock, Listed, SkipBlankLines, SERVICES;
    if d.EmptyList? {
      forall n
        ensures FreeOutside(Edited(d, op), n) <==> FreeOutside(d, n)
      {
        ListedAfterBlanks(d.post, n);
      }
    }
  }
}
