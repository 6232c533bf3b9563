/** The `services:` list of agent.yml as a map from service names to types, over every run of edits. */
module ServicesList {
  import opened Results
  import opened Text
  import opened YamlScalars
  import opened YamlExpand
  import opened ServicesText

  datatype Service = Service(name: string, subtype: string)

  // ----- Reading a block -----

  /** The entries read so far, and whether the last one is an object item whose lines still go on. */
  datatype Reading = Reading(entries: seq<Service>, inside: bool) {
    function AfterLine(kind: LineKind): Reading {
      match kind
      case Named(name) => Reading(entries + [Service(name, "")], true)
      case Scalar(name) => Reading(entries + [Service(name, "")], false)
      case Continuation(Some(subtype)) =>
        if inside && entries != [] && entries[|entries| - 1].subtype == "" then
          Reading(Typed(entries, subtype), true)
        else this
      case Continuation(None) => this
      case Other => Reading(entries, false)
    }
  }

  function Read(block: seq<string>): (r: Reading)
    ensures r.inside ==> r.entries != []
  {
    if block == [] then Reading([], false)
    else Read(block[..|block| - 1]).AfterLine(Classify(block[|block| - 1]))
  }

  function Entries(block: seq<string>): seq<Service> {
    Read(block).entries
  }

  /** No `subtype:` stands outside an object item. */
  predicate SubtypesBelong(block: seq<string>) {
    block == [] ||
    var (before, line) := (block[..|block| - 1], block[|block| - 1]);
    SubtypesBelong(before) && (Classify(line).Continuation? && Classify(line).subtype.Some? ==> Read(before).inside)
  }

  predicate Distinct(es: seq<Service>) {
    forall i, j :: 0 <= i < j < |es| ==> es[i].name != es[j].name
  }

  function Without(es: seq<Service>, name: string): (r: seq<Service>)
    ensures forall i :: 0 <= i < |r| ==> r[i].name != name && r[i] in es
  {
    if es == [] then []
    else
      var (before, last) := (Without(es[..|es| - 1], name), es[|es| - 1]);
      if last.name == name then before else before + [last]
  }

  predicate HasEntry(es: seq<Service>, name: string) {
    exists i :: 0 <= i < |es| && es[i].name == name
  }

  // ----- Entries under the editors -----

  lemma WithoutLast(es: seq<Service>, last: Service, name: string)
    ensures Without(es + [last], name) == if last.name == name then Without(es, name) else Without(es, name) + [last]
  {
    assert (es + [last])[..|es|] == es;
  }

  /** The last entry with a type. */
  function Typed(es: seq<Service>, subtype: string): (r: seq<Service>)
    requires es != []
    ensures |r| == |es| && r[..|es| - 1] == es[..|es| - 1]
    ensures r[|es| - 1] == Service(es[|es| - 1].name, subtype)
  {
    es[|es| - 1 := es[|es| - 1].(subtype := subtype)]
  }

  /** Giving the last entry a type is giving the last one that is kept a type, or nothing. */
  lemma WithoutTyped(es: seq<Service>, name: string, subtype: string)
    requires es != []
    ensures var (last, kept) := (es[|es| - 1], Without(es, name));
      if last.name == name then Without(Typed(es, subtype), name) == kept
      else kept != [] && kept[|kept| - 1] == last && Without(Typed(es, subtype), name) == Typed(kept, subtype)
  {
    var (n, last) := (|es| - 1, es[|es| - 1]);
    var (before, typed) := (Without(es[..n], name), Typed(es, subtype));
    assert Without(es, name) == if last.name == name then before else before + [last];
    assert Without(typed, name) == if last.name == name then before else before + [typed[n]];
    hide Without;
    assert before + [typed[n]] == Typed(before + [last], subtype);
  }

  /** What a reader has of the lines an object removal kept, beside what it has of all lines. */
  predicate Follows(all: Reading, kept: Reading, dropping: bool, item: string) {
    && kept.entries == Without(all.entries, item)
    && (all.inside ==> all.entries != [])
    && (all.inside ==> (all.entries[|all.entries| - 1].name == item <==> dropping))
    && (if dropping then all.inside else kept.inside == all.inside)
  }

  /** A line that begins an item, of the dropped name or another. */
  lemma FollowsItem(all: Reading, kept: Reading, dropping: bool, item: string, name: string, named: bool)
    requires Follows(all, kept, dropping, item) && (name == item ==> named)
    ensures var (after, added) := (Reading(all.entries + [Service(name, "")], named), [Service(name, "")]);
      Follows(after, if name == item then kept else Reading(kept.entries + added, named), name == item, item)
  {
    WithoutLast(all.entries, Service(name, ""), item);
    hide Without;
  }

  /** A `subtype:` inside an item. */
  lemma FollowsType(all: Reading, kept: Reading, dropping: bool, item: string, subtype: string)
    requires Follows(all, kept, dropping, item) && all.inside
    ensures var kind := Continuation(Some(subtype));
      Follows(all.AfterLine(kind), if dropping then kept else kept.AfterLine(kind), dropping, item)
  {
    WithoutTyped(all.entries, item, subtype);
    TypedByLine(all, subtype);
    TypedByLine(kept, subtype);
    hide Without, Typed, Reading.AfterLine;
  }

  lemma TypedByLine(r: Reading, subtype: string)
    ensures var (es, n) := (r.entries, |r.entries| - 1);
      r.AfterLine(Continuation(Some(subtype)))
      == if r.inside && es != [] && es[n].subtype == "" then Reading(Typed(es, subtype), true) else r
  {
  }

  lemma FollowsStep(all: Reading, kept: Reading, dropping: bool, item: string, kind: LineKind)
    requires Follows(all, kept, dropping, item) && kind != Scalar(item)
    ensures var after := all.AfterLine(kind);
      if kind == Named(item) then Follows(after, kept, true, item)
      else if dropping && kind.Continuation? then Follows(after, kept, true, item)
      else Follows(after, kept.AfterLine(kind), false, item)
  {
    hide Without;
    match kind
    case Named(name) =>
      FollowsItem(all, kept, dropping, item, name, true);
      hide Follows;
    case Scalar(name) =>
      FollowsItem(all, kept, dropping, item, name, false);
      hide Follows;
    case Continuation(Some(subtype)) =>
      if all.inside {
        FollowsType(all, kept, dropping, item, subtype);
        hide Follows;
      }
    case _ =>
  }

  /** Dropping the object items of a name drops exactly its entries. */
  lemma {:induction false} EntriesWithoutObjects(block: seq<string>, item: string)
    requires !HasKind(block, Scalar(item))
    ensures var r := RemoveObjects(block, item); Follows(Read(block), Read(r.kept), r.dropping, item)
  {
    hide Classify, Follows, Reading.AfterLine;
    if block == [] {
      EmptyFollows(item);
    } else {
      var (before, line) := (block[..|block| - 1], block[|block| - 1]);
      assert !HasKind(before, Scalar(item)) && Classify(line) != Scalar(item);
      EntriesWithoutObjects(before, item);
      var r := RemoveObjects(before, item);
      FollowsStep(Read(before), Read(r.kept), r.dropping, item, Classify(line));
      assert (r.kept + [line])[..|r.kept|] == r.kept;
    }
  }

  lemma EmptyFollows(item: string)
    ensures Follows(Reading([], false), Reading([], false), false, item)
    ensures FollowsScalars(Reading([], false), Reading([], false), item)
  {
  }

  /** The same for a scalar removal, which leaves the lines that follow the dropped item. */
  predicate FollowsScalars(all: Reading, kept: Reading, item: string) {
    && kept.entries == Without(all.entries, item)
    && (all.inside ==> all.entries != [] && all.entries[|all.entries| - 1].name != item && kept.inside)
  }

  predicate SubtypeFits(r: Reading, kind: LineKind) {
    kind.Continuation? && kind.subtype.Some? ==> r.inside
  }

  lemma FollowsScalarsItem(all: Reading, kept: Reading, item: string, name: string, named: bool)
    requires FollowsScalars(all, kept, item) && (name == item ==> !named)
    ensures var (after, added) := (Reading(all.entries + [Service(name, "")], named), [Service(name, "")]);
      FollowsScalars(after, if name == item then kept else Reading(kept.entries + added, named), item)
  {
    WithoutLast(all.entries, Service(name, ""), item);
    hide Without;
  }

  lemma FollowsScalarsType(all: Reading, kept: Reading, item: string, subtype: string)
    requires FollowsScalars(all, kept, item) && all.inside
    ensures var kind := Continuation(Some(subtype));
      FollowsScalars(all.AfterLine(kind), kept.AfterLine(kind), item) && kept.inside
  {
    WithoutTyped(all.entries, item, subtype);
    TypedByLine(all, subtype);
    TypedByLine(kept, subtype);
    hide Without, Typed, Reading.AfterLine;
  }

  lemma FollowsScalarsStep(all: Reading, kept: Reading, item: string, kind: LineKind)
    requires FollowsScalars(all, kept, item) && kind != Named(item) && SubtypeFits(all, kind)
    ensures FollowsScalars(all.AfterLine(kind), if kind == Scalar(item) then kept else kept.AfterLine(kind), item)
    ensures SubtypeFits(kept, kind)
  {
    hide Without;
    match kind
    case Named(name) =>
      FollowsScalarsItem(all, kept, item, name, true);
      hide FollowsScalars;
    case Scalar(name) =>
      FollowsScalarsItem(all, kept, item, name, false);
      hide FollowsScalars;
    case Continuation(Some(subtype)) =>
      FollowsScalarsType(all, kept, item, subtype);
      hide FollowsScalars;
    case _ =>
  }

  lemma {:induction false} EntriesWithoutScalars(block: seq<string>, item: string)
    requires !HasKind(block, Named(item)) && SubtypesBelong(block)
    ensures FollowsScalars(Read(block), Read(RemoveScalars(block, item)), item)
    ensures SubtypesBelong(RemoveScalars(block, item))
  {
    hide Classify, FollowsScalars, Reading.AfterLine;
    if block == [] {
      EmptyFollows(item);
    } else {
      var (before, line) := (block[..|block| - 1], block[|block| - 1]);
      assert !HasKind(before, Named(item)) && Classify(line) != Named(item);
      EntriesWithoutScalars(before, item);
      var kept := RemoveScalars(before, item);
      FollowsScalarsStep(Read(before), Read(kept), item, Classify(line));
      assert (kept + [line])[..|kept|] == kept;
    }
  }

  /** A `subtype:` that is kept stays with its object item. */
  lemma {:induction false} SubtypesStillBelong(block: seq<string>, item: string)
    requires !HasKind(block, Scalar(item)) && SubtypesBelong(block)
    ensures SubtypesBelong(RemoveObjects(block, item).kept)
  {
    hide Classify;
    if block != [] {
      var (before, line) := (block[..|block| - 1], block[|block| - 1]);
      assert !HasKind(before, Scalar(item));
      SubtypesStillBelong(before, item);
      EntriesWithoutObjects(before, item);
      var r := RemoveObjects(before, item);
      assert (r.kept + [line])[..|r.kept|] == r.kept;
    }
  }

  /** An item is listed in a block exactly when it is one of its entries. */
  lemma {:induction false} ListedIsEntry(block: seq<string>, item: string)
    ensures Listed(block, item) <==> HasEntry(Entries(block), item)
  {
    hide Classify;
    if block != [] {
      var n := |block| - 1;
      ListedIsEntry(block[..n], item);
      ListedLast(block[..n], block[n], item);
      assert block[..n] + [block[n]] == block;
      HasEntryAfter(Read(block[..n]), Classify(block[n]), item);
    }
  }

  lemma ListedLast(lines: seq<string>, line: string, item: string)
    ensures Listed(lines + [line], item) <==> Listed(lines, item) || Registers(line, item)
  {
    hide Registers;
    var all := lines + [line];
    if Listed(lines, item) {
      var i :| 0 <= i < |lines| && Registers(lines[i], item);
      assert Registers(all[i], item);
    }
    assert all[|lines|] == line;
  }

  lemma HasEntryAfter(r: Reading, kind: LineKind, item: string)
    requires r.inside ==> r.entries != []
    ensures HasEntry(r.AfterLine(kind).entries, item)
       <==> HasEntry(r.entries, item) || kind == Named(item) || kind == Scalar(item)
  {
    var after := r.AfterLine(kind).entries;
    if HasEntry(r.entries, item) {
      var i :| 0 <= i < |r.entries| && r.entries[i].name == item;
      assert after[i].name == item;
    }
    if kind == Named(item) || kind == Scalar(item) {
      assert after[|r.entries|].name == item;
    }
    if HasEntry(after, item) {
      var i :| 0 <= i < |after| && after[i].name == item;
      assert i < |r.entries| ==> r.entries[i].name == item;
    }
  }

  // ----- What a type can be read from -----

  predicate ReadFrom(subtype: string, block: seq<string>) {
    subtype == "" || exists i :: 0 <= i < |block| && Classify(block[i]) == Continuation(Some(subtype))
  }

  /** Every type that is read stands on a line of its own. */
  lemma {:induction false} TypesAreRead(block: seq<string>)
    ensures forall k :: 0 <= k < |Entries(block)| ==> ReadFrom(Entries(block)[k].subtype, block)
  {
    hide Classify, ReadFrom;
    if block != [] {
      var (before, line) := (block[..|block| - 1], block[|block| - 1]);
      TypesAreRead(before);
      forall k | 0 <= k < |Entries(block)|
        ensures ReadFrom(Entries(block)[k].subtype, block)
      {
        assert before + [line] == block;
        var subtype := Entries(block)[k].subtype;
        if k < |Entries(before)| && Entries(before)[k].subtype == subtype {
          ReadFromMore(subtype, before, line);
        } else {
          NewType(Read(before), Classify(line), k);
          ReadFromLast(subtype, before, line);
        }
      }
    }
  }

  lemma NewType(r: Reading, kind: LineKind, k: nat)
    requires k < |r.AfterLine(kind).entries|
    requires k < |r.entries| ==> r.AfterLine(kind).entries[k].subtype != r.entries[k].subtype
    ensures var subtype := r.AfterLine(kind).entries[k].subtype;
      subtype == "" || kind == Continuation(Some(subtype))
  {
  }

  lemma ReadFromMore(subtype: string, block: seq<string>, line: string)
    requires ReadFrom(subtype, block)
    ensures ReadFrom(subtype, block + [line])
  {
    hide Classify;
    if subtype != "" {
      var i :| 0 <= i < |block| && Classify(block[i]) == Continuation(Some(subtype));
      assert Classify((block + [line])[i]) == Continuation(Some(subtype));
    }
  }

  lemma ReadFromLast(subtype: string, block: seq<string>, line: string)
    requires subtype == "" || Classify(line) == Continuation(Some(subtype))
    ensures ReadFrom(subtype, block + [line])
  {
    hide Classify;
    assert (block + [line])[|block|] == line;
  }

  /** No newline and no more `$` than the other text has. */
  predicate HasNoMore(s: string, t: string) {
    Dollars(s) <= Dollars(t) && ('\n' !in t ==> '\n' !in s)
  }

  lemma PartHasNoMore(s: string, i: nat, j: nat)
    requires i <= j <= |s|
    ensures HasNoMore(s[i..j], s) && HasNoMore(s[i..], s) && HasNoMore(s[..j], s)
  {
    assert s == s[..i] + s[i..] && s == s[..j] + s[j..] && s[..j] == s[..i] + s[i..j];
    DollarsAppend(s[..i], s[i..]);
    DollarsAppend(s[..j], s[j..]);
    DollarsAppend(s[..i], s[i..j]);
    hide Dollars;
  }

  lemma TrimmedTwice(s: string)
    ensures TrimSpace(s) <= TrimLeft(s) && TrimSpace(TrimSpace(s)) == TrimSpace(s)
  {
    TrimSpaceIdentity(TrimSpace(s));
    hide IsSpace;
  }

  lemma PrefixHasNoMore(s: string, t: string)
    requires s <= t
    ensures HasNoMore(s, t)
  {
    PartHasNoMore(t, 0, |s|);
    hide HasNoMore;
    assert t[..|s|] == s;
  }

  lemma TrimHasNoMore(s: string)
    ensures HasNoMore(TrimSpace(s), s) && TrimSpace(TrimSpace(s)) == TrimSpace(s)
  {
    TrimmedTwice(s);
    TrimLeftIsSuffix(s);
    hide TrimSpace, TrimLeft, Dollars;
    PrefixHasNoMore(TrimSpace(s), TrimLeft(s));
    PartHasNoMore(s, |s| - |TrimLeft(s)|, |s|);
  }

  /** The type on a line has no white space around it, and no character that the line has not. */
  lemma TypeOfLine(line: string, subtype: string)
    requires Classify(line) == Continuation(Some(subtype))
    ensures TrimSpace(subtype) == subtype && HasNoMore(subtype, line)
  {
    var l := SkipBlanks(line);
    SkippedAreBlanks(line);
    PartHasNoMore(line, |line| - |l|, |line|);
    assert "subtype:" <= l && subtype == TrimSpace(l[8..]);
    PartHasNoMore(l, 8, |l|);
    TrimHasNoMore(l[8..]);
    hide Classify, TrimSpace, SkipBlanks, Dollars;
  }
}
