/** PersistService over every run: the text of agent.yml refines a map from names to types. */
module ServicesRuns {
  import opened Results
  import opened Text
  import opened YamlScalars
  import opened YamlExpand
  import opened ServicesText
  import opened ServicesList
  import opened ServicesDoc
  import opened ServicesEdits
  import opened ServicesAdds
  import opened ServicesRemovals

  // ----- Runs of the text, of the document and of a map -----

  function PersistOp(doc: string, op: Op): Result<string> {
    match op
    case Add(name, subtype) => Persist(doc, name, subtype, false)
    case Remove(name) => Persist(doc, name, "systemd", true)
  }

  /** A refused edit leaves the file alone. */
  function StepText(text: string, op: Op): string {
    match PersistOp(text, op)
    case Ok(out) => out
    case Err(_) => text
  }

  function RunText(doc: string, ops: seq<Op>): string {
    if ops == [] then doc
    else StepText(RunText(doc, ops[..|ops| - 1]), ops[|ops| - 1])
  }

  /** The run on documents that every text should be a file of. */
  function RunDoc(d: Doc, ops: seq<Op>): Doc {
    if ops == [] then d else StepDoc(RunDoc(d, ops[..|ops| - 1]), ops[|ops| - 1])
  }

  /** The same step on an abstract map; names that other lists hold are taken. */
  ghost function StepMap(m: map<string, string>, taken: iset<string>, op: Op): map<string, string> {
    if !ValidName(op.name) then m
    else
      match op
      case Add(name, subtype) => if name in m || name in taken then m else m[name := subtype]
      case Remove(name) => m - {name}
  }

  ghost function RunMap(m: map<string, string>, taken: iset<string>, ops: seq<Op>): map<string, string> {
    if ops == [] then m
    else StepMap(RunMap(m, taken, ops[..|ops| - 1]), taken, ops[|ops| - 1])
  }

  /** The names that are list items outside the block. */
  ghost function Taken(d: Doc): iset<string> {
    iset n | !FreeOutside(d, n)
  }

  function AsMap(es: seq<Service>): (m: map<string, string>)
    ensures forall n :: n in m <==> HasEntry(es, n)
  {
    if es == [] then map[]
    else
      var (before, last) := (AsMap(es[..|es| - 1]), es[|es| - 1]);
      LastEntry(es[..|es| - 1], last);
      assert es[..|es| - 1] + [last] == es;
      before[last.name := last.subtype]
  }

  lemma LastEntry(es: seq<Service>, last: Service)
    ensures forall n :: HasEntry(es + [last], n) <==> HasEntry(es, n) || last.name == n
  {
    var all := es + [last];
    forall n ensures HasEntry(all, n) <==> HasEntry(es, n) || last.name == n {
      if HasEntry(es, n) {
        var i :| 0 <= i < |es| && es[i].name == n;
        assert all[i].name == n;
      }
      assert all[|es|] == last;
    }
  }

  lemma AsMapAppend(es: seq<Service>, s: Service)
    ensures AsMap(es + [s]) == AsMap(es)[s.name := s.subtype]
  {
    assert (es + [s])[..|es|] == es;
  }

  lemma UpdateThenRemove<K, V>(m: map<K, V>, k: K, v: V, gone: K)
    ensures m[k := v] - {gone} == if k == gone then m - {gone} else (m - {gone})[k := v]
  {
  }

  lemma {:induction false} AsMapWithout(es: seq<Service>, name: string)
    ensures AsMap(Without(es, name)) == AsMap(es) - {name}
  {
    hide HasEntry;
    if es == [] {
      assert AsMap([]) == map[];
    } else {
      var (before, last) := (es[..|es| - 1], es[|es| - 1]);
      AsMapWithout(before, name);
      UpdateThenRemove(AsMap(before), last.name, last.subtype, name);
      if last.name != name {
        AsMapAppend(Without(before, name), last);
      }
    }
  }

  lemma EditedMap(es: seq<Service>, op: Op)
    ensures op.Add? ==> AsMap(EditedList(es, op)) == AsMap(es)[op.name := op.subtype]
    ensures op.Remove? ==> AsMap(EditedList(es, op)) == AsMap(es) - {op.name}
  {
    match op
    case Add(name, subtype) => AsMapAppend(es, Service(name, subtype));
    case Remove(name) => AsMapWithout(es, name);
  }

  /** What the map holds was the type of an entry. */
  lemma {:induction false} AsMapValue(es: seq<Service>, name: string) returns (k: nat)
    requires name in AsMap(es)
    ensures k < |es| && es[k].subtype == AsMap(es)[name]
  {
    hide HasEntry;
    var n := |es| - 1;
    k := n;
    if es[n].name != name {
      k := AsMapValue(es[..n], name);
    }
  }

  // ----- One step -----

  /** What the caller has to see to: a writable type, and a removal that takes the entry, all of it and nothing else. */
  ghost predicate Sound(d: Doc, ended: bool, op: Op) {
    match op
    case Add(name, subtype) => Accepts(d, op) ==> Writable(d, subtype)
    case Remove(name) => ValidName(name) ==> !TakesOutside(d, ended, name) && !CutShort(d, ended, name)
  }

  /** The text is a file of the document, and its services are those of the map. */
  ghost predicate OnCourse(text: string, d: Doc, m: map<string, string>) {
    TerminatedLines(text) == d.Lines() && AsMap(ServicesIn(text)) == m
  }

  /** The document accepts an edit exactly when the map changes, or is left without a name that it has. */
  lemma AcceptsIsMember(d: Doc, op: Op)
    ensures var m := AsMap(d.Services());
      Accepts(d, op)
      <==> (ValidName(op.name) && if op.Add? then op.name !in m && op.name !in Taken(d) else op.name in m)
  {
    hide HasEntry, Doc.Services, FreeOutside, ValidName;
  }

  /** The map after a step, by whether the document accepts it. */
  lemma StepOfMap(d: Doc, op: Op)
    ensures var m := AsMap(d.Services());
      StepMap(m, Taken(d), op) == if Accepts(d, op) then AsMap(EditedList(d.Services(), op)) else m
  {
    AcceptsIsMember(d, op);
    if Accepts(d, op) {
      EditedMap(d.Services(), op);
    }
    hide Accepts, Doc.Services, AsMap, Taken, ValidName, EditedList;
  }

  /** A step of the document keeps it well-formed and has the services of the map. */
  lemma SoundDoc(d: Doc, op: Op)
    requires WellFormed(d) && (Accepts(d, op) ==> Clean(op))
    ensures WellFormed(StepDoc(d, op))
    ensures AsMap(StepDoc(d, op).Services()) == StepMap(AsMap(d.Services()), Taken(d), op)
  {
    StepOfMap(d, op);
    hide WellFormed, Accepts, AsMap, Taken, EditedList, StepMap, Clean, Edited, Doc.Services;
    if Accepts(d, op) {
      EditedIsWellFormed(d, op);
      EditedServices(d, op);
    }
  }

  lemma AddStep(text: string, d: Doc, op: Op)
    requires WellFormed(d) && TerminatedLines(text) == d.Lines() && op.Add?
    ensures PersistOp(text, op).Ok? <==> Accepts(d, op)
    ensures Accepts(d, op) && Writable(d, op.subtype) ==> TerminatedLines(StepText(text, op)) == StepDoc(d, op).Lines()
    ensures !Accepts(d, op) ==> StepText(text, op) == text && StepDoc(d, op) == d
    ensures Accepts(d, op) && !Writable(d, op.subtype) ==>
      var services := ServicesIn(StepText(text, op));
      forall k :: 0 <= k < |services| ==> services[k].subtype != op.subtype
  {
    AddIsExact(text, d, op.name, op.subtype);
    hide WellFormed, TerminatedLines, Persist, Writable, ServicesIn, Accepts, Edited, Doc.Lines, Doc.Services;
    if Accepts(d, op) && !Writable(d, op.subtype) {
      UnwritableIsNotRead(text, d, op.name, op.subtype);
    }
  }

  lemma RemoveStep(text: string, d: Doc, op: Op)
    requires WellFormed(d) && TerminatedLines(text) == d.Lines() && op.Remove?
    ensures TerminatedLines(StepText(text, op)) == StepDoc(d, op).Lines() <==> Sound(d, EndsInNewline(text), op)
    ensures Sound(d, EndsInNewline(text), op) ==> (PersistOp(text, op).Ok? <==> Accepts(d, op))
  {
    InvalidIsRefused(text, d, op);
    hide WellFormed, TerminatedLines, Persist, Accepts, StepDoc, Doc.Lines, TakesOutside, CutShort, ValidName;
    if ValidName(op.name) {
      RemoveIsExact(text, d, op.name, "systemd");
    }
  }

  lemma InvalidIsRefused(text: string, d: Doc, op: Op)
    ensures !ValidName(op.name) ==> PersistOp(text, op).Err? && !Accepts(d, op) && StepDoc(d, op) == d
  {
    hide HasEntry, FreeOutside, ValidName, Doc.Services;
  }

  lemma SoundIsClean(d: Doc, ended: bool, op: Op)
    requires Sound(d, ended, op) && Accepts(d, op)
    ensures Clean(op)
  {
    hide TakesOutside, CutShort, Accepts;
  }

  /** With a type that is not writable the map has what the text has not. */
  lemma UnwritableIsOffCourse(text: string, d: Doc, op: Op)
    requires WellFormed(d) && TerminatedLines(text) == d.Lines()
    requires op.Add? && Accepts(d, op) && !Writable(d, op.subtype)
    ensures AsMap(ServicesIn(StepText(text, op))) != StepMap(AsMap(d.Services()), Taken(d), op)
  {
    AddStep(text, d, op);
    AcceptsIsMember(d, op);
    var (services, m) := (ServicesIn(StepText(text, op)), StepMap(AsMap(d.Services()), Taken(d), op));
    assert op.name in m && m[op.name] == op.subtype;
    hide WellFormed, TerminatedLines, Writable, ServicesIn, Accepts, Doc.Lines, Doc.Services, StepText, StepDoc, AsMap,
         StepMap, Taken;
    if AsMap(services) == m {
      var k := AsMapValue(services, op.name);
    }
  }

  /**
   One call on the text of a well-formed document is one step of the map, and
   leaves a file of the document that it should, exactly if the step is sound; a
   sound call is refused exactly where the map is left as it is.
   */
  lemma StepIsExact(text: string, d: Doc, op: Op)
    requires WellFormed(d) && TerminatedLines(text) == d.Lines()
    ensures var m := StepMap(AsMap(d.Services()), Taken(d), op);
      OnCourse(StepText(text, op), StepDoc(d, op), m) <==> Sound(d, EndsInNewline(text), op)
    ensures Sound(d, EndsInNewline(text), op) ==>
      && WellFormed(StepDoc(d, op)) && (PersistOp(text, op).Ok? <==> Accepts(d, op))
      && AsMap(StepDoc(d, op).Services()) == StepMap(AsMap(d.Services()), Taken(d), op)
  {
    var sound := Sound(d, EndsInNewline(text), op);
    AddIsSound(d, EndsInNewline(text), op);
    hide WellFormed, TerminatedLines, EndsInNewline, Sound, Writable, ServicesIn, Accepts, Doc.Lines, Doc.Services,
         StepText, StepDoc, AsMap, StepMap, Taken, PersistOp, Clean;
    if op.Add? {
      AddStep(text, d, op);
    } else {
      RemoveStep(text, d, op);
    }
    if sound {
      if Accepts(d, op) {
        SoundIsClean(d, EndsInNewline(text), op);
      }
      SoundDoc(d, op);
      ServicesAreRead(StepDoc(d, op), StepText(text, op));
    } else if op.Add? {
      UnwritableIsOffCourse(text, d, op);
    }
  }

  lemma AddIsSound(d: Doc, ended: bool, op: Op)
    ensures op.Add? ==> (Sound(d, ended, op) <==> (Accepts(d, op) ==> Writable(d, op.subtype)))
  {
    hide Accepts, Writable;
  }

  // ----- Every run -----

  /** What a run leaves of the document it started from. */
  ghost predicate Refines(text: string, e: Doc, d: Doc, m: map<string, string>) {
    && WellFormed(e) && TerminatedLines(text) == e.Lines() && AsMap(e.Services()) == m
    && SameOutside(d, e) && Taken(e) == Taken(d)
  }

  /** Each call is sound for the document and the text that it finds. */
  ghost predicate SoundRun(d: Doc, text: string, ops: seq<Op>) {
    forall i :: 0 <= i < |ops| ==> Sound(RunDoc(d, ops[..i]), EndsInNewline(RunText(text, ops[..i])), ops[i])
  }

  lemma SoundRunStep(d: Doc, text: string, ops: seq<Op>)
    requires ops != []
    ensures var n := |ops| - 1;
      SoundRun(d, text, ops)
      <==> SoundRun(d, text, ops[..n]) && Sound(RunDoc(d, ops[..n]), EndsInNewline(RunText(text, ops[..n])), ops[n])
  {
    hide Sound, RunText, RunDoc, EndsInNewline;
    var n := |ops| - 1;
    assert forall i :: 0 <= i < n ==> ops[..n][..i] == ops[..i] && ops[..n][i] == ops[i];
  }

  lemma OutsideAfterStep(d: Doc, e: Doc, op: Op)
    requires SameOutside(d, e) && Taken(e) == Taken(d)
    ensures SameOutside(d, StepDoc(e, op)) && Taken(StepDoc(e, op)) == Taken(d)
  {
    if Accepts(e, op) {
      NoEntryInNone(op.name);
      assert e.EmptyList? ==> op.Add?;
      EditedKeepsOutside(e, op);
    }
    hide FreeOutside, Accepts, SkipBlankLines, Edited;
    if Accepts(e, op) {
      SameOutsideTwice(d, e, Edited(e, op));
    }
  }

  lemma SameOutsideTwice(d: Doc, e: Doc, f: Doc)
    requires SameOutside(d, e) && SameOutside(e, f)
    ensures SameOutside(d, f)
  {
    hide SkipBlankLines;
  }

  lemma RefinesStep(text: string, e: Doc, d: Doc, m: map<string, string>, op: Op)
    requires Refines(text, e, d, m) && Sound(e, EndsInNewline(text), op)
    ensures Refines(StepText(text, op), StepDoc(e, op), d, StepMap(m, Taken(d), op))
  {
    hide WellFormed, TerminatedLines, EndsInNewline, Sound, ServicesIn, Doc.Lines, Doc.Services, StepText, StepDoc,
         AsMap, StepMap, Taken, PersistOp, SameOutside;
    StepIsExact(text, e, op);
    OutsideAfterStep(d, e, op);
  }

  /**
   Over every sound run of additions and removals the text stays a file of a
   well-formed document, its list holds what the abstract map does, with names that
   other lists hold taken, and the lines outside the list survive.
   */
  lemma {:induction false} SoundRunRefines(d: Doc, text: string, ops: seq<Op>)
    requires WellFormed(d) && TerminatedLines(text) == d.Lines() && SoundRun(d, text, ops)
    ensures Refines(RunText(text, ops), RunDoc(d, ops), d, RunMap(AsMap(d.Services()), Taken(d), ops))
  {
    hide WellFormed, TerminatedLines, EndsInNewline, Sound, Doc.Lines, Doc.Services, StepText, StepDoc, AsMap, StepMap,
         Taken, Refines, SoundRun;
    if ops == [] {
      StartRefines(d, text);
    } else {
      var n := |ops| - 1;
      SoundRunStep(d, text, ops);
      SoundRunRefines(d, text, ops[..n]);
      RefinesStep(RunText(text, ops[..n]), RunDoc(d, ops[..n]), d, RunMap(AsMap(d.Services()), Taken(d), ops[..n]),
                  ops[n]);
    }
  }

  lemma StartRefines(d: Doc, text: string)
    requires WellFormed(d) && TerminatedLines(text) == d.Lines()
    ensures Refines(text, d, d, AsMap(d.Services()))
  {
    hide WellFormed, TerminatedLines, AsMap, Doc.Lines, Doc.Services, Taken;
  }

  /** What a reader finds in the text after a sound run is the abstract map after the same run. */
  lemma TextRefinesMap(d: Doc, text: string, ops: seq<Op>)
    requires WellFormed(d) && TerminatedLines(text) == d.Lines() && SoundRun(d, text, ops)
    ensures var m := RunMap(AsMap(d.Services()), Taken(d), ops);
      && Refines(RunText(text, ops), RunDoc(d, ops), d, m)
      && AsMap(ServicesIn(RunText(text, ops))) == m
  {
    SoundRunRefines(d, text, ops);
    hide WellFormed, TerminatedLines, AsMap, Doc.Lines, Doc.Services, Taken, ServicesIn, SoundRun, RunText, RunDoc,
         RunMap, SameOutside;
    ServicesAreRead(RunDoc(d, ops), RunText(text, ops));
  }

  /** Every text of the run is a file of the document it should be, and holds the services of the map. */
  ghost predicate StaysOnCourse(d: Doc, text: string, ops: seq<Op>) {
    forall k :: 0 <= k <= |ops| ==>
      OnCourse(RunText(text, ops[..k]), RunDoc(d, ops[..k]), RunMap(AsMap(d.Services()), Taken(d), ops[..k]))
  }

  lemma StaysOnCourseStep(d: Doc, text: string, ops: seq<Op>)
    requires ops != []
    ensures var n := |ops| - 1;
      StaysOnCourse(d, text, ops)
      <==> StaysOnCourse(d, text, ops[..n])
           && OnCourse(RunText(text, ops), RunDoc(d, ops), RunMap(AsMap(d.Services()), Taken(d), ops))
  {
    hide RunText, RunDoc, RunMap, OnCourse, AsMap, Taken, Doc.Services;
    var n := |ops| - 1;
    assert ops[..|ops|] == ops;
    assert forall k :: 0 <= k <= n ==> ops[..n][..k] == ops[..k];
    var m := AsMap(d.Services());
    if StaysOnCourse(d, text, ops[..n]) && OnCourse(RunText(text, ops), RunDoc(d, ops), RunMap(m, Taken(d), ops)) {
      forall k | 0 <= k <= |ops|
        ensures OnCourse(RunText(text, ops[..k]), RunDoc(d, ops[..k]), RunMap(m, Taken(d), ops[..k]))
      {
        if k <= n {
          assert OnCourse(RunText(text, ops[..n][..k]), RunDoc(d, ops[..n][..k]), RunMap(m, Taken(d), ops[..n][..k]));
        }
      }
    }
    if StaysOnCourse(d, text, ops) {
      assert OnCourse(RunText(text, ops[..|ops|]), RunDoc(d, ops[..|ops|]), RunMap(m, Taken(d), ops[..|ops|]));
      forall k | 0 <= k <= n
        ensures OnCourse(RunText(text, ops[..n][..k]), RunDoc(d, ops[..n][..k]), RunMap(m, Taken(d), ops[..n][..k]))
      {
        assert OnCourse(RunText(text, ops[..k]), RunDoc(d, ops[..k]), RunMap(m, Taken(d), ops[..k]));
      }
    }
  }

  /**
   From any file with a well-formed list, and for any run of calls: every text of
   the run is the file it should be, and is read as the abstract map, exactly if
   every call of the run is sound.
   */
  lemma {:induction false} RunIsExact(d: Doc, text: string, ops: seq<Op>)
    requires WellFormed(d) && TerminatedLines(text) == d.Lines()
    ensures StaysOnCourse(d, text, ops) <==> SoundRun(d, text, ops)
  {
    hide WellFormed, TerminatedLines, EndsInNewline, Sound, Doc.Lines, Doc.Services, StepText, StepDoc, AsMap, StepMap,
         Taken, SoundRun, StaysOnCourse, OnCourse, SameOutside;
    if ops == [] {
      EmptyRun(d, text);
    } else {
      var n := |ops| - 1;
      RunIsExact(d, text, ops[..n]);
      SoundRunStep(d, text, ops);
      StaysOnCourseStep(d, text, ops);
      if SoundRun(d, text, ops[..n]) {
        SoundRunRefines(d, text, ops[..n]);
        StepIsExact(RunText(text, ops[..n]), RunDoc(d, ops[..n]), ops[n]);
      }
    }
  }

  lemma EmptyRun(d: Doc, text: string)
    requires WellFormed(d) && TerminatedLines(text) == d.Lines()
    ensures StaysOnCourse(d, text, []) && SoundRun(d, text, [])
  {
    ServicesAreRead(d, text);
    hide WellFormed, TerminatedLines, Doc.Lines, Doc.Services, AsMap, ServicesIn, Taken;
    var none: seq<Op> := [];
    assert none[..0] == none;
  }

  // ----- Removing what was added -----

  lemma AddedFile(text: string, d: Doc, name: string, subtype: string)
    requires WellFormed(d) && d.BlockList? && TerminatedLines(text) == d.Lines()
    requires '\n' !in subtype && Accepts(d, Add(name, subtype))
    ensures var lines := d.pre + [d.head] + (d.block + EntryLines(name, subtype)) + d.post;
      && StepText(text, Add(name, subtype)) == TextOf(lines)
      && TerminatedLines(TextOf(lines)) == lines && EndsInNewline(TextOf(lines))
  {
    var entry := EntryLines(name, subtype);
    var lines := d.pre + [d.head] + (d.block + entry) + d.post;
    StepIsPersist(text, name, subtype);
    assert ValidName(name);
    hide *;
    AddIsPersisted(text, d, name, subtype);
    AddedToBlock(d, entry);
    SingleLinesOf(d);
    BlockServices(d);
    EntryLinesFit(name, subtype);
    WithEntrySingle(d.pre + [d.head], d.block, d.post, entry);
    LinesOfText(lines);
  }

  lemma StepIsPersist(text: string, name: string, subtype: string)
    ensures Persist(text, name, subtype, false).Ok? ==>
      StepText(text, Add(name, subtype)) == Persist(text, name, subtype, false).value
  {
    hide Persist;
  }

  lemma WithEntrySingle(front: seq<string>, block: seq<string>, post: seq<string>, entry: seq<string>)
    requires front != [] && forall i :: 0 <= i < |front + block + post| ==> '\n' !in (front + block + post)[i]
    requires forall i :: 0 <= i < |entry| ==> EntryLineFits(entry[i])
    ensures var lines := front + (block + entry) + post;
      lines != [] && forall i :: 0 <= i < |lines| ==> '\n' !in lines[i]
  {
    hide NotKey, InBlock;
    var before := front + block + post;
    assert forall i :: 0 <= i < |front| ==> front[i] == before[i];
    assert forall i :: 0 <= i < |block| ==> block[i] == before[|front| + i];
    assert forall i :: 0 <= i < |post| ==> post[i] == before[|front| + |block| + i];
  }

  lemma DroppedEntry(name: string, subtype: string) returns (form: LineKind)
    requires ValidName(name)
    ensures FormOf(form, name) && ItemForm(form)
    ensures var entry := EntryLines(name, subtype);
      && HasKind(entry, form) && Drop(entry, form) == []
      && (HasKind(entry, Named(name)) <==> form == Named(name))
  {
    hide *;
    EntryLinesAre(name, subtype);
    var (item, line) := ("  - name: " + name, "    subtype: " + subtype);
    if subtype != "" {
      ObjectEntry(name);
      SubtypeLine(subtype);
      form := Named(name);
      ObjectDropped(item, line, name);
    } else {
      ScalarEntry(name);
      form := Scalar(name);
      ScalarDropped("  - " + name, name);
    }
  }

  lemma ObjectDropped(item: string, line: string, name: string)
    requires Classify(item) == Named(name) && Classify(line).Continuation?
    ensures var (entry, form) := ([item, line], Named(name));
      HasKind(entry, form) && Drop(entry, form) == [] && FormOf(form, name) && ItemForm(form)
  {
    hide Classify;
    var entry := [item, line];
    assert entry[..1] == [item] && entry[..1][..0] == [] && Classify(entry[0]) == Named(name);
    assert RemoveObjects(entry[..1], name) == Removal([], true);
  }

  lemma ScalarDropped(item: string, name: string)
    requires Classify(item) == Scalar(name)
    ensures var (entry, form) := ([item], Scalar(name));
      && HasKind(entry, form) && !HasKind(entry, Named(name)) && Drop(entry, form) == []
      && FormOf(form, name) && ItemForm(form)
  {
    hide Classify, HasKind;
    var entry := [item];
    assert entry[..0] == [] && [] + [item] == entry && entry[0] == item;
    assert RemoveScalars(entry[..0], name) == [];
    LastKind([], item, Scalar(name));
    LastKind([], item, Named(name));
    NoKindInNone(Named(name));
  }

  /** The lines with a written entry of a new name, without it. */
  lemma EntryIsDropped(d: Doc, lines: seq<string>, name: string, subtype: string)
    requires WellFormed(d) && d.BlockList? && Accepts(d, Add(name, subtype))
    requires lines == d.pre + [d.head] + (d.block + EntryLines(name, subtype)) + d.post
    ensures HasKind(lines, RemovedForm(lines, name)) && Drop(lines, RemovedForm(lines, name)) == d.Lines()
  {
    hide *;
    var (entry, block) := (EntryLines(name, subtype), d.block + EntryLines(name, subtype));
    NewName(d, name, subtype);
    FitParts(d);
    var form := DroppedEntry(name, subtype);
    UnlistedKinds(d.pre, name);
    UnlistedKinds(d.block, name);
    UnlistedKinds(d.post, name);
    FormOfNamed(name);
    HasKindAppend(d.block, entry, form);
    HasKindAppend(d.block, entry, Named(name));
    KindInParts(d.pre, d.head, block, d.post, form, name);
    KindInParts(d.pre, d.head, block, d.post, Named(name), name);
    FormIs(lines, name, form);
    DropParts(d.pre, d.head, block, d.post, form);
    DropFresh(d.block, entry, name, form);
    NothingToDrop(d.pre, form);
    NothingToDrop(d.post, form);
  }

  lemma FormOfNamed(name: string)
    ensures FormOf(Named(name), name)
  {
  }

  lemma FormIs(lines: seq<string>, name: string, form: LineKind)
    requires FormOf(form, name) && (HasKind(lines, Named(name)) <==> form == Named(name))
    ensures RemovedForm(lines, name) == form
  {
    hide HasKind;
  }

  lemma NewName(d: Doc, name: string, subtype: string)
    requires d.BlockList? && Accepts(d, Add(name, subtype))
    ensures ValidName(name) && !Listed(d.pre, name) && !Listed(d.block, name) && !Listed(d.post, name)
  {
    ListedIsEntry(d.block, name);
    hide Listed, HasEntry, Entries, ValidName;
  }

  lemma UnlistedKinds(lines: seq<string>, name: string)
    requires !Listed(lines, name)
    ensures forall form :: FormOf(form, name) ==> !HasKind(lines, form)
  {
    ListedIsKind(lines, name);
    hide HasKind, Listed;
  }

  lemma DropFresh(block: seq<string>, entry: seq<string>, name: string, form: LineKind)
    requires FormOf(form, name) && ItemForm(form) && !Listed(block, name) && Drop(entry, form) == []
    ensures Drop(block + entry, form) == block
  {
    NothingToRemove(block, name);
    RemoveObjectsAppend(block, entry, name);
    RemoveScalarsAppend(block, entry, name);
    hide RemoveObjects, RemoveScalars, Listed;
    assert block + [] == block;
  }

  /** Adding to an existing block and removing again restores the text, with its last line ended. */
  lemma RemoveUndoesAdd(text: string, d: Doc, name: string, subtype: string)
    requires WellFormed(d) && d.BlockList? && TerminatedLines(text) == d.Lines()
    requires '\n' !in subtype && Accepts(d, Add(name, subtype))
    ensures RunText(text, [Add(name, subtype), Remove(name)]) == TextOf(d.Lines())
  {
    var lines := d.pre + [d.head] + (d.block + EntryLines(name, subtype)) + d.post;
    NewName(d, name, subtype);
    hide *;
    TwoSteps(text, Add(name, subtype), Remove(name));
    AddedFile(text, d, name, subtype);
    EntryIsDropped(d, lines, name, subtype);
    EndedRemoval(TextOf(lines), name);
    PersistIsRemoval(TextOf(lines), name, "systemd");
    StepIsRemoval(TextOf(lines), name);
  }

  lemma StepIsRemoval(text: string, name: string)
    ensures var r := Persist(text, name, "systemd", true);
      StepText(text, Remove(name)) == if r.Ok? then r.value else text
  {
    hide Persist;
  }

  lemma TwoSteps(text: string, a: Op, b: Op)
    ensures RunText(text, [a, b]) == StepText(StepText(text, a), b)
  {
    assert [a, b][..1] == [a] && [a][..0] == [];
    assert RunText(text, []) == text && RunText(text, [a]) == StepText(text, a);
    hide PersistOp;
  }
}
