/**
 The in-memory copy of agent.yml and the size and mtime it is keyed by, shared by
 several goroutines: ReloadIfChanged, the Persist methods and Reload of config.go.
 */
module ConfigCache {
  import opened Results

  /** What os.Stat says of the file; mod 0 is the zero time. */
  datatype Stat = Stat(size: int, mod: int)

  predicate Unchanged(recorded: Stat, fi: Stat) {
    recorded.size == fi.size && recorded.mod == fi.mod && recorded.mod != 0
  }

  /** One goroutine's view of the manager: the calls as they run when nothing interferes. */
  class CachedConfig<Config> {
    var current: Config
    var recorded: Stat

    constructor (loaded: Config)
      ensures current == loaded && recorded == Stat(0, 0)
    {
      current := loaded;
      recorded := Stat(0, 0);
    }

    /** Reports whether the configuration was replaced by a changed one; errors leave everything alone. */
    method ReloadIfChanged(fi: Option<Stat>, loaded: Option<Config>) returns (r: Result<bool>)
      modifies this
      ensures r.Err? <==> fi.None? || (!Unchanged(old(recorded), fi.value) && loaded.None?)
      ensures r.Err? || Unchanged(old(recorded), fi.value) ==> current == old(current) && recorded == old(recorded)
      ensures r.Ok? && !Unchanged(old(recorded), fi.value) ==> current == loaded.value && recorded == fi.value
      ensures r.Ok? ==> (r.value <==> !Unchanged(old(recorded), fi.value) && old(recorded).mod != 0)
    {
      if fi.None? {
        return Err("stat");
      }
      var same := recorded.size == fi.value.size && recorded.mod == fi.value.mod && recorded.mod != 0;
      if same {
        return Ok(false);
      }
      if loaded.None? {
        return Err("reload");
      }
      var first := recorded.mod == 0;
      current := loaded.value;
      recorded := fi.value;
      return Ok(!first);
    }
  }

  // ----- All interleavings -----

  /** The contents of the file at one time, and the stat it carries. */
  datatype FileImage = FileImage(stat: Stat, content: string)

  /** Where one goroutine stands.  Version numbers count the images of the file. */
  datatype Phase =
    | Idle
    | Statted(fi: Stat, version: nat)                      // after os.Stat
    | MustLoad(fi: Stat, version: nat)                     // the check said "changed"
    | Loaded(fi: Stat, version: nat, content: string, contentVersion: nat)
    | Locked                                               // inside a Persist method or ClearEnrollment
    | LockedLoaded(content: string, contentVersion: nat)
    | ReloadLoaded(content: string, contentVersion: nat)   // inside Reload, which holds no lock to load

  datatype State = State(images: seq<FileImage>, memory: string, memoryVersion: nat,
                         recorded: Stat, recordedVersion: nat,
                         phases: map<nat, Phase>, locked: bool)
  {
    function PhaseOf(i: nat): Phase {
      if i in phases then phases[i] else Idle
    }

    function Latest(): (n: nat)
      requires images != []
    {
      |images| - 1
    }
  }

  datatype Event =
    | OutsideWrite(image: FileImage)
    | StatFile(i: nat)
    | CheckStat(i: nat)
    | LoadFile(i: nat)
    | LoadFails(i: nat)
    | Install(i: nat)
    | PersistLock(i: nat)
    | PersistWrite(i: nat, image: FileImage)
    | PersistLoad(i: nat)
    | PersistInstall(i: nat)
    | PersistFails(i: nat)
    | ReloadLoad(i: nat)
    | ReloadInstall(i: nat)

  predicate Enabled(s: State, e: Event)
    requires s.images != []
  {
    match e
    case OutsideWrite(_) => true
    case StatFile(i) => s.PhaseOf(i).Idle?
    case CheckStat(i) => s.PhaseOf(i).Statted? && !s.locked
    case LoadFile(i) => s.PhaseOf(i).MustLoad?
    case LoadFails(i) => s.PhaseOf(i).MustLoad?
    case Install(i) => s.PhaseOf(i).Loaded? && !s.locked
    case PersistLock(i) => s.PhaseOf(i).Idle? && !s.locked
    case PersistWrite(i, _) => s.PhaseOf(i).Locked?
    case PersistLoad(i) => s.PhaseOf(i).Locked?
    case PersistInstall(i) => s.PhaseOf(i).LockedLoaded?
    case PersistFails(i) => s.PhaseOf(i).Locked?
    case ReloadLoad(i) => s.PhaseOf(i).Idle?
    case ReloadInstall(i) => s.PhaseOf(i).ReloadLoaded? && !s.locked
  }

  function Step(s: State, e: Event): (r: State)
    requires s.images != [] && Enabled(s, e)
    ensures r.images != []
  {
    var n := s.Latest();
    match e
    case OutsideWrite(image) => s.(images := s.images + [image])
    case StatFile(i) => s.(phases := s.phases[i := Statted(s.images[n].stat, n)])
    case CheckStat(i) =>
      var p := s.PhaseOf(i);
      s.(phases := s.phases[i := if Unchanged(s.recorded, p.fi) then Idle else MustLoad(p.fi, p.version)])
    case LoadFile(i) =>
      var p := s.PhaseOf(i);
      s.(phases := s.phases[i := Loaded(p.fi, p.version, s.images[n].content, n)])
    case LoadFails(i) => s.(phases := s.phases[i := Idle])
    case Install(i) =>
      var p := s.PhaseOf(i);
      s.(memory := p.content, memoryVersion := p.contentVersion,
         recorded := p.fi, recordedVersion := p.version, phases := s.phases[i := Idle])
    case PersistLock(i) => s.(phases := s.phases[i := Locked], locked := true)
    case PersistWrite(i, image) => s.(images := s.images + [image])
    case PersistLoad(i) => s.(phases := s.phases[i := LockedLoaded(s.images[n].content, n)])
    case PersistInstall(i) =>
      var p := s.PhaseOf(i);
      s.(memory := p.content, memoryVersion := p.contentVersion, phases := s.phases[i := Idle], locked := false)
    case PersistFails(i) => s.(phases := s.phases[i := Idle], locked := false)
    case ReloadLoad(i) => s.(phases := s.phases[i := ReloadLoaded(s.images[n].content, n)])
    case ReloadInstall(i) =>
      var p := s.PhaseOf(i);
      s.(memory := p.content, memoryVersion := p.contentVersion, phases := s.phases[i := Idle])
  }

  // ----- Coherence -----

  /** No two contents of the file carry the same stat, and none the zero time. */
  predicate DistinctStats(images: seq<FileImage>) {
    && (forall a :: 0 <= a < |images| ==> images[a].stat.mod != 0)
    && forall a, b :: 0 <= a < b < |images| ==> images[a].stat != images[b].stat
  }

  predicate HasContent(s: State, content: string, version: nat) {
    version < |s.images| && content == s.images[version].content
  }

  predicate HasStat(s: State, fi: Stat, version: nat) {
    version < |s.images| && fi == s.images[version].stat
  }

  /** What a goroutine carries is what the file once was, and a load is no older than the stat before it. */
  predicate PhaseFits(s: State, p: Phase) {
    match p
    case Idle => true
    case Locked => s.locked
    case Statted(fi, v) => HasStat(s, fi, v)
    case MustLoad(fi, v) => HasStat(s, fi, v)
    case Loaded(fi, v, content, cv) => HasStat(s, fi, v) && HasContent(s, content, cv) && v <= cv
    case LockedLoaded(content, cv) =>
      s.locked && HasContent(s, content, cv) && (s.recorded.mod != 0 ==> s.recordedVersion <= cv)
    case ReloadLoaded(content, cv) => HasContent(s, content, cv)
  }

  predicate InLock(p: Phase) {
    p.Locked? || p.LockedLoaded?
  }

  /** version(recorded stat) <= version(memory) <= version(disk). */
  predicate Coherent(s: State) {
    && s.images != []
    && HasContent(s, s.memory, s.memoryVersion)
    && (s.recorded.mod != 0 ==> HasStat(s, s.recorded, s.recordedVersion) && s.recordedVersion <= s.memoryVersion)
    && (forall i :: i in s.phases ==> PhaseFits(s, s.phases[i]))
    && (forall i, j :: i in s.phases && j in s.phases && InLock(s.phases[i]) && InLock(s.phases[j]) ==> i == j)
  }

  /** The agent has loaded the file and stat'ed nothing yet. */
  function Start(image: FileImage): State {
    State([image], image.content, 0, Stat(0, 0), 0, map[], false)
  }

  /** A started cache is coherent, so every run from one keeps the order. */
  lemma RunsFromStartKeepCoherent(image: FileImage, events: seq<Event>)
    requires AllEnabled(Start(image), events)
    requires forall i :: 0 <= i < |events| ==> !events[i].ReloadInstall?
    ensures Coherent(Start(image)) && Coherent(Run(Start(image), events))
  {
    assert Coherent(Start(image));
    RunsKeepCoherent(Start(image), events);
  }

  lemma WriteKeepsCoherent(s: State, image: FileImage)
    requires Coherent(s)
    ensures Coherent(s.(images := s.images + [image]))
  {
    var t := s.(images := s.images + [image]);
    forall i | i in s.phases ensures PhaseFits(t, s.phases[i]) {
      assert PhaseFits(s, s.phases[i]);
    }
  }

  /** One goroutine moves on while the file, the memory and the recorded stat stay. */
  lemma MoveKeepsCoherent(s: State, i: nat, p: Phase, locked: bool)
    requires Coherent(s) && PhaseFits(s.(locked := locked), p) && (s.locked ==> locked || InLock(s.PhaseOf(i)))
    requires InLock(p) ==> !s.locked || InLock(s.PhaseOf(i))
    ensures Coherent(s.(phases := s.phases[i := p], locked := locked))
  {
    var t := s.(phases := s.phases[i := p], locked := locked);
    forall j | j in t.phases ensures PhaseFits(t, t.phases[j]) {
      assert j != i ==> PhaseFits(s, s.phases[j]);
    }
    forall j | j in s.phases && InLock(s.phases[j]) ensures s.locked {
      assert PhaseFits(s, s.phases[j]);
    }
  }

  /** The memory takes in contents no older than the recorded stat, outside any other goroutine's lock. */
  lemma InstallKeepsCoherent(s: State, content: string, version: nat, fi: Stat, statVersion: nat)
    requires Coherent(s) && HasContent(s, content, version)
    requires fi.mod != 0 ==> HasStat(s, fi, statVersion) && statVersion <= version
    requires forall j :: j in s.phases && InLock(s.phases[j]) ==> fi == s.recorded && statVersion == s.recordedVersion
    ensures Coherent(s.(memory := content, memoryVersion := version, recorded := fi, recordedVersion := statVersion))
  {
    var t := s.(memory := content, memoryVersion := version, recorded := fi, recordedVersion := statVersion);
    forall j | j in s.phases ensures PhaseFits(t, s.phases[j]) {
      assert PhaseFits(s, s.phases[j]);
    }
  }

  /** Every step but Reload's own keeps the cache coherent. */
  lemma StepKeepsCoherent(s: State, e: Event)
    requires Coherent(s) && Enabled(s, e) && !e.ReloadInstall?
    ensures Coherent(Step(s, e))
  {
    if e.OutsideWrite? || e.PersistWrite? {
      WriteKeepsCoherent(s, e.image);
    } else {
      var (i, t) := (e.i, Step(s, e));
      var p := s.PhaseOf(i);
      assert PhaseFits(s, p);
      forall j | j in s.phases && InLock(s.phases[j]) ensures s.locked {
        assert PhaseFits(s, s.phases[j]);
      }
      var moved := s.(phases := t.phases, locked := t.locked);
      MoveKeepsCoherent(s, i, t.phases[i], t.locked);
      hide Coherent, PhaseFits;
      if e.Install? {
        InstallKeepsCoherent(moved, p.content, p.contentVersion, p.fi, p.version);
      } else if e.PersistInstall? {
        InstallKeepsCoherent(moved, p.content, p.contentVersion, s.recorded, s.recordedVersion);
      }
    }
  }

  /** Installing what Reload loaded keeps the cache coherent exactly when that is no older than the recorded stat. */
  lemma ReloadKeepsCoherent(s: State, i: nat)
    requires Coherent(s) && Enabled(s, ReloadInstall(i))
    ensures Coherent(Step(s, ReloadInstall(i)))
       <==> (s.recorded.mod != 0 ==> s.recordedVersion <= s.phases[i].contentVersion)
  {
  }

  /** Every event of a run is enabled when its turn comes. */
  predicate AllEnabled(s: State, events: seq<Event>)
    requires s.images != []
    decreases |events|
  {
    events == [] || (Enabled(s, events[0]) && AllEnabled(Step(s, events[0]), events[1..]))
  }

  function Run(s: State, events: seq<Event>): (r: State)
    requires s.images != [] && AllEnabled(s, events)
    ensures r.images != []
    decreases |events|
  {
    if events == [] then s else Run(Step(s, events[0]), events[1..])
  }

  /** The lock is held exactly while some goroutine is inside a Persist method, and by one only. */
  predicate LockHeld(s: State) {
    && (s.locked <==> exists i :: i in s.phases && InLock(s.phases[i]))
    && forall i, j :: i in s.phases && j in s.phases && InLock(s.phases[i]) && InLock(s.phases[j]) ==> i == j
  }

  lemma LockAfterMove(s: State, i: nat, p: Phase, t: State)
    requires LockHeld(s) && t.phases == s.phases[i := p]
    requires InLock(s.PhaseOf(i)) || !InLock(p) || !s.locked
    requires t.locked == ((s.locked && !InLock(s.PhaseOf(i))) || InLock(p))
    ensures LockHeld(t)
  {
    if j :| j in s.phases && InLock(s.phases[j]) && j != i {
      assert j in t.phases && InLock(t.phases[j]);
    }
    if InLock(p) {
      assert i in t.phases && InLock(t.phases[i]);
    }
    assert forall j :: j in t.phases && j != i ==> j in s.phases && t.phases[j] == s.phases[j];
  }

  lemma StepKeepsLock(s: State, e: Event)
    requires s.images != [] && LockHeld(s) && Enabled(s, e)
    ensures LockHeld(Step(s, e))
  {
    var t := Step(s, e);
    if !e.OutsideWrite? && !e.PersistWrite? {
      var i := e.i;
      InsideMeansLocked(s, i);
      hide LockHeld;
      LockAfterMove(s, i, t.phases[i], t);
    }
  }

  lemma InsideMeansLocked(s: State, i: nat)
    requires LockHeld(s)
    ensures InLock(s.PhaseOf(i)) ==> s.locked
  {
  }

  lemma {:induction false} RunsKeepLock(s: State, events: seq<Event>)
    requires s.images != [] && LockHeld(s) && AllEnabled(s, events)
    ensures LockHeld(Run(s, events))
    decreases |events|
  {
    hide LockHeld, Enabled, Step;
    if events != [] {
      StepKeepsLock(s, events[0]);
      RunsKeepLock(Step(s, events[0]), events[1..]);
    }
  }

  /** A goroutine inside can always leave, and frees the lock for the others by doing so. */
  lemma LockIsReleased(s: State, i: nat)
    requires s.images != [] && LockHeld(s) && i in s.phases && InLock(s.phases[i])
    ensures s.phases[i].Locked? ==> (Enabled(s, PersistFails(i)) && !Step(s, PersistFails(i)).locked)
    ensures s.phases[i].Locked? ==> (Enabled(s, PersistLoad(i)) && Step(s, PersistLoad(i)).phases[i].LockedLoaded?)
    ensures s.phases[i].LockedLoaded? ==> Enabled(s, PersistInstall(i)) && !Step(s, PersistInstall(i)).locked
  {
  }

  lemma OneStep(s: State, e: Event, events: seq<Event>)
    requires s.images != [] && Enabled(s, e) && AllEnabled(Step(s, e), events)
    ensures AllEnabled(s, [e] + events) && Run(s, [e] + events) == Run(Step(s, e), events)
  {
    hide Step, Enabled;
    assert ([e] + events)[1..] == events;
  }

  lemma NoStep(s: State)
    requires s.images != []
    ensures AllEnabled(s, []) && Run(s, []) == s
  {
  }

  lemma FourSteps(s: State, a: Event, b: Event, c: Event, d: Event)
    requires s.images != [] && Enabled(s, a) && Enabled(Step(s, a), b) && Enabled(Step(Step(s, a), b), c)
    requires Enabled(Step(Step(Step(s, a), b), c), d)
    ensures AllEnabled(s, [a, b, c, d]) && Run(s, [a, b, c, d]) == Step(Step(Step(Step(s, a), b), c), d)
  {
    hide *;
    var s1 := Step(s, a);
    var s2 := Step(s1, b);
    var s3 := Step(s2, c);
    assert [d] + [] == [d] && [c] + [d] == [c, d] && [b] + [c, d] == [b, c, d] && [a] + [b, c, d] == [a, b, c, d];
    NoStep(Step(s3, d));
    OneStep(s3, d, []);
    OneStep(s2, c, [d]);
    OneStep(s1, b, [c, d]);
    OneStep(s, a, [b, c, d]);
  }

  /** A file with another stat than the recorded one is loaded by the next call that is not interfered with. */
  lemma ChangeIsSeen(s: State, i: nat)
    requires s.images != [] && !s.locked && s.PhaseOf(i).Idle? && s.images[|s.images| - 1].stat != s.recorded
    ensures var events := [StatFile(i), CheckStat(i), LoadFile(i), Install(i)];
      && AllEnabled(s, events)
      && var (r, file) := (Run(s, events), s.images[|s.images| - 1]);
         && r.memory == file.content && r.recorded == file.stat && r.images == s.images
         && r.memoryVersion == r.recordedVersion == |s.images| - 1 && r.PhaseOf(i).Idle? && !r.locked
  {
    FourSteps(s, StatFile(i), CheckStat(i), LoadFile(i), Install(i));
  }

  /** What a Persist method writes is what it leaves in memory. */
  lemma PersistIsLoaded(s: State, i: nat, image: FileImage)
    requires s.images != [] && !s.locked && s.PhaseOf(i).Idle?
    ensures var events := [PersistLock(i), PersistWrite(i, image), PersistLoad(i), PersistInstall(i)];
      && AllEnabled(s, events)
      && var r := Run(s, events);
         && r.memory == image.content && r.images == s.images + [image]
         && r.memoryVersion == |s.images| && r.PhaseOf(i).Idle? && !r.locked
    ensures Enabled(s, PersistLock(i)) && Step(s, PersistLock(i)).locked
  {
    FourSteps(s, PersistLock(i), PersistWrite(i, image), PersistLoad(i), PersistInstall(i));
  }

  /** Every interleaving of any number of ReloadIfChanged calls with Persist calls and outside writes. */
  lemma {:induction false} RunsKeepCoherent(s: State, events: seq<Event>)
    requires Coherent(s) && AllEnabled(s, events)
    requires forall k :: 0 <= k < |events| ==> !events[k].ReloadInstall?
    ensures Coherent(Run(s, events))
    decreases |events|
  {
    assert s.images != [];
    hide Coherent, Enabled, Step;
    if events != [] {
      StepKeepsCoherent(s, events[0]);
      RunsKeepCoherent(Step(s, events[0]), events[1..]);
    }
  }

  /**
   When a check finds the file unchanged, the memory is no older than the file
   that was stat'ed, provided no two contents share a stat.
   */
  lemma UnchangedMeansNotOlder(s: State, i: nat)
    requires Coherent(s) && DistinctStats(s.images) && Enabled(s, CheckStat(i))
    requires Unchanged(s.recorded, s.phases[i].fi)
    ensures s.phases[i].version == s.recordedVersion <= s.memoryVersion
  {
    assert PhaseFits(s, s.phases[i]);
  }

  /** Memory is stale after a run of events although the next check would call the file unchanged. */
  predicate StaleButUnchanged(s: State)
    requires s.images != []
  {
    Unchanged(s.recorded, s.images[s.Latest()].stat) && s.memory != s.images[s.Latest()].content
  }

  /** The states a run passes through. */
  predicate IsTrace(states: seq<State>, events: seq<Event>) {
    && |states| == |events| + 1
    && forall k :: 0 <= k < |events| ==>
         states[k].images != [] && Enabled(states[k], events[k]) && states[k + 1] == Step(states[k], events[k])
  }

  lemma {:induction false} TraceIsRun(states: seq<State>, events: seq<Event>)
    requires IsTrace(states, events) && states[0].images != []
    ensures AllEnabled(states[0], events) && Run(states[0], events) == states[|events|]
    decreases |events|
  {
    hide Step, Enabled;
    if events != [] {
      assert states[1] == Step(states[0], events[0]);
      assert forall k :: 0 <= k < |events| - 1 ==> events[1..][k] == events[k + 1] && states[1..][k] == states[k + 1];
      TraceIsRun(states[1..], events[1..]);
    }
  }

  /** Two contents with one stat go unnoticed. */
  lemma SharedStatGoesUnnoticed(a: FileImage, b: FileImage)
    requires a.stat == b.stat && a.stat.mod != 0 && a.content != b.content
    ensures var run := [StatFile(0), CheckStat(0), LoadFile(0), Install(0), OutsideWrite(b)];
      AllEnabled(Start(a), run) && StaleButUnchanged(Run(Start(a), run))
  {
    var s1 := Step(Start(a), StatFile(0));
    var s2 := Step(s1, CheckStat(0));
    var s3 := Step(s2, LoadFile(0));
    var s4 := Step(s3, Install(0));
    var s5 := Step(s4, OutsideWrite(b));
    var run := [StatFile(0), CheckStat(0), LoadFile(0), Install(0), OutsideWrite(b)];
    assert StaleButUnchanged(s5);
    hide *;
    TraceIsRun([Start(a), s1, s2, s3, s4, s5], run) by {
      assert IsTrace([Start(a), s1, s2, s3, s4, s5], run);
    }
  }

  /** One call of ReloadIfChanged from start to end, with no other step between. */
  lemma ReloadAlone(s: State, i: nat) returns (s1: State, s2: State, s3: State, s4: State)
    requires s.images != [] && s.PhaseOf(i).Idle? && !s.locked
    requires !Unchanged(s.recorded, s.images[s.Latest()].stat)
    ensures s1.images == s2.images == s3.images == s4.images == s.images
    ensures Enabled(s, StatFile(i)) && s1 == Step(s, StatFile(i))
    ensures Enabled(s1, CheckStat(i)) && s2 == Step(s1, CheckStat(i))
    ensures Enabled(s2, LoadFile(i)) && s3 == Step(s2, LoadFile(i))
    ensures Enabled(s3, Install(i)) && s4 == Step(s3, Install(i))
    ensures s4.recorded == s.images[s.Latest()].stat && s4.recordedVersion == s.Latest() && !s4.locked
    ensures forall j: nat :: j != i ==> s4.PhaseOf(j) == s.PhaseOf(j)
  {
    s1 := Step(s, StatFile(i));
    s2 := Step(s1, CheckStat(i));
    s3 := Step(s2, LoadFile(i));
    s4 := Step(s3, Install(i));
  }

  lemma RaceBegins(a: FileImage, b: FileImage) returns (s1: State, s2: State)
    requires DistinctStats([a, b])
    ensures Enabled(Start(a), ReloadLoad(1)) && s1 == Step(Start(a), ReloadLoad(1))
    ensures s1.images != [] && Enabled(s1, OutsideWrite(b)) && s2 == Step(s1, OutsideWrite(b))
    ensures s2.images == [a, b] && !s2.locked && s2.PhaseOf(0) == Idle && s2.PhaseOf(1) == ReloadLoaded(a.content, 0)
    ensures !Unchanged(s2.recorded, b.stat)
  {
    assert [a, b][1].stat.mod != 0;
    s1 := Step(Start(a), ReloadLoad(1));
    s2 := Step(s1, OutsideWrite(b));
  }

  /** The states of the race below, up to the point where Reload installs what it loaded first. */
  lemma ReloadRace(a: FileImage, b: FileImage) returns (states: seq<State>)
    requires DistinctStats([a, b])
    ensures |states| == 7 && states[0] == Start(a)
    ensures IsTrace(states, [ReloadLoad(1), OutsideWrite(b), StatFile(0), CheckStat(0), LoadFile(0), Install(0)])
    ensures var s := states[6];
      && s.images == [a, b] && s.recorded == b.stat && s.recordedVersion == 1 && !s.locked
      && s.PhaseOf(1) == ReloadLoaded(a.content, 0)
  {
    hide Step, Enabled, DistinctStats, Unchanged;
    var s1, s2 := RaceBegins(a, b);
    var s3, s4, s5, s6 := ReloadAlone(s2, 0);
    states := [Start(a), s1, s2, s3, s4, s5, s6];
  }

  /**
   Reload loads without the lock and leaves the recorded stat alone: one that
   loaded before a change and installs after another goroutine took the change
   in puts the old configuration back, and no later check notices.
   */
  lemma ReloadGoesUnnoticed(a: FileImage, b: FileImage)
    requires DistinctStats([a, b]) && a.content != b.content
    ensures var run := [ReloadLoad(1), OutsideWrite(b), StatFile(0), CheckStat(0), LoadFile(0), Install(0),
                        ReloadInstall(1)];
      AllEnabled(Start(a), run) && StaleButUnchanged(Run(Start(a), run)) && !Coherent(Run(Start(a), run))
  {
    var states := ReloadRace(a, b);
    var before := [ReloadLoad(1), OutsideWrite(b), StatFile(0), CheckStat(0), LoadFile(0), Install(0)];
    assert b == [a, b][1] && b.stat.mod != 0;
    var last := Step(states[6], ReloadInstall(1));
    assert last.recorded == b.stat && last.recordedVersion == 1 && last.memoryVersion == 0 && last.memory == a.content;
    assert StaleButUnchanged(last) && !Coherent(last);
    hide Step, Enabled, Coherent, StaleButUnchanged;
    var (all, run) := (states + [last], before + [ReloadInstall(1)]);
    assert IsTrace(all, run) by {
      assert forall k :: 0 <= k < 6 ==> all[k] == states[k] && run[k] == before[k];
      assert Enabled(states[6], ReloadInstall(1)) && all[6] == states[6] && run[6] == ReloadInstall(1);
    }
    TraceIsRun(all, run);
    assert run == [ReloadLoad(1), OutsideWrite(b), StatFile(0), CheckStat(0), LoadFile(0), Install(0),
                   ReloadInstall(1)];
  }
}
