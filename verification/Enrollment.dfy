/** Credentials in agent.yml: PersistEnrollment, ClearEnrollment and what a dial presents. */
module Enrollment {
  import opened Results
  import opened Text
  import opened YamlQuote
  import opened YamlScalars
  import opened YamlExpand
  import opened YamlTopLevel

  const AUTH_TOKEN := "auth_token"
  const PUBLIC_KEY := "public_key"
  const JOIN_KEY := "join_key"
  const PREV_AUTH_TOKEN := "prev_auth_token"

  datatype Config = Config(authToken: string, publicKey: string, joinKey: string, prevAuthToken: string) {
    /** What a dial authenticates with. */
    function Credential(): string {
      if authToken != "" then authToken else joinKey
    }

    /** What it adds to prove which host this was; nothing while there is a token. */
    function PrevToken(): string {
      if authToken == "" then TrimSpace(prevAuthToken) else ""
    }

    /** Clearing would leave nothing to authenticate with. */
    predicate RefusesReset() {
      joinKey == "" && authToken != ""
    }

    /** The token a clear keeps as the continuity proof. */
    function KeptToken(): string {
      if TrimSpace(authToken) != "" then TrimSpace(authToken) else prevAuthToken
    }
  }

  function LoadConfig(doc: string): Config {
    Config(ReadScalar(doc, AUTH_TOKEN), ReadScalar(doc, PUBLIC_KEY),
           ReadScalar(doc, JOIN_KEY), ReadScalar(doc, PREV_AUTH_TOKEN))
  }

  function Enrolled(doc: string, token: string, publicKey: string): string {
    var withToken := SetScalar(doc, AUTH_TOKEN, token);
    var withKey := if publicKey != "" then SetScalar(withToken, PUBLIC_KEY, publicKey) else withToken;
    SetScalar(SetScalar(withKey, JOIN_KEY, ""), PREV_AUTH_TOKEN, "")
  }

  function Cleared(doc: string, prev: string): string {
    SetScalar(SetScalar(SetScalar(doc, AUTH_TOKEN, ""), PUBLIC_KEY, ""), PREV_AUTH_TOKEN, prev)
  }

  /** Which file operations of one call succeed. */
  datatype FileIO = FileIO(readOk: bool, writeOk: bool, chmodOk: bool, loadOk: bool) {
    predicate Written() {
      readOk && writeOk
    }

    predicate Done() {
      readOk && writeOk && chmodOk && loadOk
    }
  }

  class ConfigManager {
    var disk: string
    var current: Config
    /** The host's WireGuard key file is there. */
    var meshKey: bool

    constructor (doc: string, meshKey: bool)
      ensures disk == doc && current == LoadConfig(doc) && this.meshKey == meshKey
    {
      disk := doc;
      current := LoadConfig(doc);
      this.meshKey := meshKey;
    }

    method PersistEnrollment(token: string, publicKey: string, io: FileIO) returns (ok: bool)
      modifies this`disk, this`current
      ensures ok <==> token != "" && io.Done()
      ensures disk == if token != "" && io.Written() then Enrolled(old(disk), token, publicKey) else old(disk)
      ensures current == if ok then LoadConfig(disk) else old(current)
    {
      if token == "" || !io.readOk {
        return false;
      }
      var out := SetScalar(disk, AUTH_TOKEN, token);
      if publicKey != "" {
        out := SetScalar(out, PUBLIC_KEY, publicKey);
      }
      out := SetScalar(out, JOIN_KEY, "");
      out := SetScalar(out, PREV_AUTH_TOKEN, "");
      if !io.writeOk {
        return false;
      }
      disk := out;
      if !io.chmodOk || !io.loadOk {
        return false;
      }
      current := LoadConfig(disk);
      return true;
    }

    method ClearEnrollment(io: FileIO) returns (ok: bool)
      modifies this`disk, this`current
      ensures ok <==> io.Done()
      ensures disk == if io.Written() then Cleared(old(disk), old(current).KeptToken()) else old(disk)
      ensures current == if ok then LoadConfig(disk) else old(current)
    {
      if !io.readOk {
        return false;
      }
      var prev := current.prevAuthToken;
      var tok := TrimSpace(current.authToken);
      if tok != "" {
        prev := tok;
      }
      var out := SetScalar(disk, AUTH_TOKEN, "");
      out := SetScalar(out, PUBLIC_KEY, "");
      out := SetScalar(out, PREV_AUTH_TOKEN, prev);
      if !io.writeOk {
        return false;
      }
      disk := out;
      if !io.chmodOk || !io.loadOk {
        return false;
      }
      current := LoadConfig(disk);
      return true;
    }

    /** The tray's re-enroll: the guard, then the clear. */
    method Reenroll(io: FileIO) returns (ok: bool)
      modifies this`disk, this`current
      ensures ok <==> !old(current).RefusesReset() && io.Done()
      ensures old(current).RefusesReset() ==> disk == old(disk) && current == old(current)
      ensures !old(current).RefusesReset() ==>
        && disk == (if io.Written() then Cleared(old(disk), old(current).KeptToken()) else old(disk))
        && current == (if ok then LoadConfig(disk) else old(current))
    {
      if current.joinKey == "" && current.authToken != "" {
        return false;
      }
      ok := ClearEnrollment(io);
    }

    /**
     `reset-enrollment`, a process of its own: its manager loads the file, then the
     guard, the clear, and the host's mesh key if that was asked for; lists what is gone.
     */
    method ResetEnrollment(openOk: bool, io: FileIO, removeMeshKey: bool, keyPath: string, removeOk: bool)
      returns (cleared: seq<string>, ok: bool)
      modifies this
      ensures var (loaded, before) := (LoadConfig(old(disk)), old(disk));
        var (allowed, done) := (openOk && !loaded.RefusesReset(), openOk && !loaded.RefusesReset() && io.Done());
        && disk == (if allowed && io.Written() then Cleared(before, loaded.KeptToken()) else before)
        && current == (if done then LoadConfig(disk) else if openOk then loaded else old(current))
        && (ok <==> done && !(removeMeshKey && old(meshKey) && !removeOk))
        && meshKey == (old(meshKey) && !(done && removeMeshKey && removeOk))
        && cleared == (if done then [AUTH_TOKEN, PUBLIC_KEY] else [])
                    + (if old(meshKey) && !meshKey then [keyPath] else [])
    {
      hide LoadConfig, Cleared;
      cleared, ok := [], false;
      if !openOk {
        return;
      }
      current := LoadConfig(disk);
      ok := Reenroll(io);
      if !ok {
        return;
      }
      cleared := [AUTH_TOKEN, PUBLIC_KEY];
      if removeMeshKey {
        if meshKey && removeOk {
          meshKey := false;
          cleared := cleared + [keyPath];
        } else if meshKey {
          ok := false;
        }
      }
    }
  }

  // ----- What the edits compose to -----

  ghost predicate TopLevelKeys(doc: string) {
    TopLevel(doc, AUTH_TOKEN) && TopLevel(doc, PUBLIC_KEY) && TopLevel(doc, JOIN_KEY) && TopLevel(doc, PREV_AUTH_TOKEN)
  }

  predicate IsKey(key: string) {
    key == AUTH_TOKEN || key == PUBLIC_KEY || key == JOIN_KEY || key == PREV_AUTH_TOKEN
  }

  lemma KeysAreIdentifiers(key: string)
    requires IsKey(key)
    ensures Identifier(key) && '\n' !in key
  {
  }

  lemma KeysDiffer()
    ensures AUTH_TOKEN != PUBLIC_KEY && AUTH_TOKEN != JOIN_KEY && AUTH_TOKEN != PREV_AUTH_TOKEN
    ensures PUBLIC_KEY != JOIN_KEY && PUBLIC_KEY != PREV_AUTH_TOKEN && JOIN_KEY != PREV_AUTH_TOKEN
  {
    assert |AUTH_TOKEN| == 10 && |PUBLIC_KEY| == 10 && |JOIN_KEY| == 8 && |PREV_AUTH_TOKEN| == 15;
    assert AUTH_TOKEN[0] == 'a' && PUBLIC_KEY[0] == 'p';
  }

  function SetField(c: Config, key: string, value: string): Config {
    if key == AUTH_TOKEN then c.(authToken := value)
    else if key == PUBLIC_KEY then c.(publicKey := value)
    else if key == JOIN_KEY then c.(joinKey := value)
    else c.(prevAuthToken := value)
  }

  lemma SetOneReads(doc: string, key: string, value: string, other: string)
    requires IsKey(key) && IsKey(other) && TopLevel(doc, key) && TopLevel(doc, other)
    ensures TopLevel(SetScalar(doc, key, value), other)
    ensures ReadScalar(SetScalar(doc, key, value), other) == if other == key then value else ReadScalar(doc, other)
  {
    KeysAreIdentifiers(key);
    KeysAreIdentifiers(other);
    assert '\n' !in WrittenLine(key, value, true);
    hide *;
    if other == key {
      SetThenRead(doc, key, value, true);
    } else {
      SetLeavesOtherKeys(doc, key, value, true, other);
    }
  }

  /** One edit of the file is one field update of the configuration it loads to. */
  lemma SetFieldOfDocument(doc: string, key: string, value: string)
    requires IsKey(key) && TopLevelKeys(doc)
    ensures LoadConfig(SetScalar(doc, key, value)) == SetField(LoadConfig(doc), key, value)
    ensures TopLevelKeys(SetScalar(doc, key, value))
  {
    SetOneReads(doc, key, value, AUTH_TOKEN);
    SetOneReads(doc, key, value, PUBLIC_KEY);
    SetOneReads(doc, key, value, JOIN_KEY);
    SetOneReads(doc, key, value, PREV_AUTH_TOKEN);
    KeysDiffer();
    hide TopLevel, ReadScalar, SetScalar, AUTH_TOKEN, PUBLIC_KEY, JOIN_KEY, PREV_AUTH_TOKEN;
  }

  /** Enrolling leaves the issued token and key, and neither join key nor continuity proof. */
  lemma EnrolledReads(doc: string, token: string, publicKey: string)
    requires TopLevelKeys(doc)
    ensures LoadConfig(Enrolled(doc, token, publicKey))
         == Config(token, if publicKey != "" then publicKey else LoadConfig(doc).publicKey, "", "")
    ensures TopLevelKeys(Enrolled(doc, token, publicKey))
  {
    KeysDiffer();
    hide TopLevelKeys, LoadConfig, SetScalar, AUTH_TOKEN, PUBLIC_KEY, JOIN_KEY, PREV_AUTH_TOKEN;
    var withToken := SetScalar(doc, AUTH_TOKEN, token);
    SetFieldOfDocument(doc, AUTH_TOKEN, token);
    var withKey := if publicKey != "" then SetScalar(withToken, PUBLIC_KEY, publicKey) else withToken;
    if publicKey != "" {
      SetFieldOfDocument(withToken, PUBLIC_KEY, publicKey);
    }
    SetFieldOfDocument(withKey, JOIN_KEY, "");
    SetFieldOfDocument(SetScalar(withKey, JOIN_KEY, ""), PREV_AUTH_TOKEN, "");
  }

  lemma ClearedReads(doc: string, prev: string)
    requires TopLevelKeys(doc)
    ensures LoadConfig(Cleared(doc, prev)) == Config("", "", LoadConfig(doc).joinKey, prev)
    ensures TopLevelKeys(Cleared(doc, prev))
  {
    KeysDiffer();
    hide TopLevelKeys, LoadConfig, SetScalar, AUTH_TOKEN, PUBLIC_KEY, JOIN_KEY, PREV_AUTH_TOKEN;
    SetFieldOfDocument(doc, AUTH_TOKEN, "");
    var blank := SetScalar(doc, AUTH_TOKEN, "");
    SetFieldOfDocument(blank, PUBLIC_KEY, "");
    SetFieldOfDocument(SetScalar(blank, PUBLIC_KEY, ""), PREV_AUTH_TOKEN, prev);
  }

  /** The operator's config-set of the join key. */
  function JoinKeySet(doc: string, key: string): string {
    Apply(doc, Setting(JOIN_KEY, key))
  }

  /** No `join_key` line is there to be rewritten, or no `$` of the key is active. */
  predicate Settable(doc: string, key: string) {
    Inert(key) || !HasTopLevelKey(Split(doc, '\n'), JOIN_KEY)
  }

  /** Setting the join key changes no other field, and loads back as it was set exactly when it is settable. */
  lemma JoinKeySetReads(doc: string, key: string)
    requires TopLevelKeys(doc)
    ensures TopLevelKeys(JoinKeySet(doc, key))
    ensures var after := LoadConfig(JoinKeySet(doc, key));
      && after == LoadConfig(doc).(joinKey := after.joinKey)
      && (after.joinKey == key <==> Settable(doc, key))
  {
    KeysAreIdentifiers(JOIN_KEY);
    KeysAreIdentifiers(AUTH_TOKEN);
    KeysAreIdentifiers(PUBLIC_KEY);
    KeysAreIdentifiers(PREV_AUTH_TOKEN);
    KeysDiffer();
    hide Inert, Identifier, Apply, TopLevel, ReadScalar, HasTopLevelKey, Split, AUTH_TOKEN, PUBLIC_KEY, JOIN_KEY,
         PREV_AUTH_TOKEN;
    SettingReads(doc, JOIN_KEY, key);
    SettingKeepsTopLevel(doc, JOIN_KEY, key, JOIN_KEY);
    SettingKeepsTopLevel(doc, JOIN_KEY, key, AUTH_TOKEN);
    SettingKeepsTopLevel(doc, JOIN_KEY, key, PUBLIC_KEY);
    SettingKeepsTopLevel(doc, JOIN_KEY, key, PREV_AUTH_TOKEN);
    SettingKeepsOthers(doc, JOIN_KEY, key, AUTH_TOKEN);
    SettingKeepsOthers(doc, JOIN_KEY, key, PUBLIC_KEY);
    SettingKeepsOthers(doc, JOIN_KEY, key, PREV_AUTH_TOKEN);
  }

  /** Over an existing join key, one that is all reference leaves an empty join key. */
  lemma JoinKeyVanishes(doc: string, key: string)
    requires TopLevelKeys(doc) && HasTopLevelKey(Split(doc, '\n'), JOIN_KEY) && key == ['$', 'x']
    ensures LoadConfig(JoinKeySet(doc, key)) == LoadConfig(doc).(joinKey := "")
  {
    KeysAreIdentifiers(JOIN_KEY);
    QuotedReference(key);
    VanishingEditorsAgree(doc, JOIN_KEY, key);
    assert IsKey(JOIN_KEY);
    hide LoadConfig, TopLevelKeys, SetTopLevel, SetScalarValue, Quote;
    SetFieldOfDocument(doc, JOIN_KEY, "");
    KeysDiffer();
  }

  lemma QuotedReference(key: string)
    requires key == ['$', 'x']
    ensures NeedsQuotes(key) && Quote(key) == ['"'] + key + ['"'] && Quote([]) == ['"', '"']
  {
    assert key[1..] == ['x'] && key[1..][1..] == [];
    assert Escape('$') == ['$'] && Escape('x') == ['x'];
    assert EscapeAll(key[1..]) == ['x'] + EscapeAll([]);
    assert EscapeAll(key) == ['$'] + EscapeAll(key[1..]);
    assert key[0] == '$' && !IsDigit('$');
    assert Atoi(key).None?;
  }

  // ----- Enrolment over every run -----

  /** The agent's file and what it has in memory, with the last token ever stored in the file. */
  datatype Agent = Agent(doc: string, memory: Config, last: string)

  /** The calls of the agent, those of the CLI beside it, and a reload, each with the outcome of its file operations. */
  datatype Event =
    | Enroll(token: string, publicKey: string, io: FileIO)
    | Reset(io: FileIO)
    | Load(ok: bool)
    | SetJoinKey(key: string, ok: bool)
    | CliReset(openOk: bool, io: FileIO)

  function Step(a: Agent, e: Event): Agent {
    match e
    case Enroll(token, publicKey, io) =>
      if token == "" || !io.Written() then a
      else
        var doc := Enrolled(a.doc, token, publicKey);
        Agent(doc, if io.Done() then LoadConfig(doc) else a.memory, token)
    case Reset(io) =>
      if a.memory.RefusesReset() || !io.Written() then a
      else
        var doc := Cleared(a.doc, a.memory.KeptToken());
        Agent(doc, if io.Done() then LoadConfig(doc) else a.memory, a.last)
    case Load(ok) => if ok then a.(memory := LoadConfig(a.doc)) else a
    case SetJoinKey(key, ok) => if ok then a.(doc := JoinKeySet(a.doc, key)) else a
    case CliReset(openOk, io) =>
      var c := LoadConfig(a.doc);
      if !openOk || c.RefusesReset() || !io.Written() then a else a.(doc := Cleared(a.doc, c.KeptToken()))
  }

  function Run(a: Agent, events: seq<Event>): Agent {
    if events == [] then a else Step(Run(a, events[..|events| - 1]), events[|events| - 1])
  }

  /** Issued tokens carry no surrounding white space; a join key that is all the agent has is there and settable. */
  predicate ProperEvent(a: Agent, e: Event) {
    match e
    case Enroll(token, _, _) => TrimSpace(token) == token
    case SetJoinKey(key, ok) =>
      ok ==> LoadConfig(a.doc).authToken != "" || (key != "" && Settable(a.doc, key))
    case _ => true
  }

  ghost predicate ProperEvents(a: Agent, events: seq<Event>) {
    forall i :: 0 <= i < |events| ==> ProperEvent(Run(a, events[..i]), events[i])
  }

  /** From its file the agent can authenticate, and can prove which host it was. */
  ghost predicate Continuous(a: Agent) {
    var c := LoadConfig(a.doc);
    && TopLevelKeys(a.doc) && TrimSpace(a.last) == a.last
    && c.Credential() != ""
    && (c.authToken != "" ==> c.authToken == a.last)
    && (c.authToken == "" && a.last != "" ==> c.prevAuthToken == a.last)
  }

  /** A clear from memory is refused or not written, or it finds a join key in the file and keeps the last token. */
  predicate Sound(a: Agent, e: Event) {
    e.Reset? && e.io.Written() && !a.memory.RefusesReset() ==>
      LoadConfig(a.doc).joinKey != "" && (a.last == "" || a.memory.KeptToken() == a.last)
  }

  /** The file operations of a call, or none if it has none of its own. */
  function Operations(e: Event): Option<FileIO> {
    match e
    case Enroll(_, _, io) => Some(io)
    case Reset(io) => Some(io)
    case CliReset(_, io) => Some(io)
    case _ => None
  }

  /**
   A failed read or write changes nothing; a failed chmod or load keeps what was
   written from memory; and only a call of the agent, or its reload, moves memory.
   */
  lemma FailuresAreContained(a: Agent, e: Event)
    ensures var io := Operations(e); io.Some? && (!io.value.readOk || !io.value.writeOk) ==> Step(a, e) == a
    ensures var r := Step(a, e);
      r.memory == a.memory
      || (r.memory == LoadConfig(r.doc)
          && (e == Load(true) || ((e.Enroll? || e.Reset?) && e.io == FileIO(true, true, true, true))))
    ensures e == Load(true)
        || (e.Enroll? && e.token != "" && e.io == FileIO(true, true, true, true))
        || (e.Reset? && !a.memory.RefusesReset() && e.io == FileIO(true, true, true, true))
        ==> Step(a, e).memory == LoadConfig(Step(a, e).doc)
    ensures e == Load(false) || (e.SetJoinKey? && !e.ok) || (e.CliReset? && !e.openOk) ==> Step(a, e) == a
  {
    hide LoadConfig, Enrolled, Cleared, JoinKeySet;
  }

  lemma ClearIsContinuous(a: Agent, kept: string, memory: Config)
    requires Continuous(a)
    ensures Continuous(Agent(Cleared(a.doc, kept), memory, a.last))
       <==> LoadConfig(a.doc).joinKey != "" && (a.last == "" || kept == a.last)
  {
    ClearedReads(a.doc, kept);
    hide LoadConfig, TopLevelKeys, Cleared, TrimSpace;
  }

  /** What the file loads to is always fit for a clear. */
  lemma FileIsFit(a: Agent)
    requires Continuous(a) && !LoadConfig(a.doc).RefusesReset()
    ensures var c := LoadConfig(a.doc); c.joinKey != "" && (a.last == "" || c.KeptToken() == a.last)
  {
    hide LoadConfig, TopLevelKeys;
    assert TrimSpace("") == "";
  }

  /** A clear from memory that is what the file loads to is sound. */
  lemma FreshIsSound(a: Agent, e: Event)
    requires Continuous(a) && a.memory == LoadConfig(a.doc)
    ensures Sound(a, e)
  {
    hide LoadConfig, Continuous;
    if !a.memory.RefusesReset() {
      FileIsFit(a);
    }
  }

  lemma EnrollIsContinuous(a: Agent, token: string, publicKey: string, memory: Config)
    requires Continuous(a) && TrimSpace(token) == token && token != ""
    ensures Continuous(Agent(Enrolled(a.doc, token, publicKey), memory, token))
  {
    EnrolledReads(a.doc, token, publicKey);
    hide LoadConfig, TopLevelKeys, Enrolled, TrimSpace;
  }

  lemma JoinKeyIsContinuous(a: Agent, key: string)
    requires Continuous(a) && (LoadConfig(a.doc).authToken != "" || (key != "" && Settable(a.doc, key)))
    ensures Continuous(a.(doc := JoinKeySet(a.doc, key)))
  {
    JoinKeySetReads(a.doc, key);
    hide LoadConfig, TopLevelKeys, JoinKeySet, TrimSpace, Settable;
  }

  lemma MemoryIsApart(a: Agent, memory: Config)
    ensures Continuous(a.(memory := memory)) <==> Continuous(a)
  {
    hide LoadConfig, TopLevelKeys, TrimSpace;
  }

  /** One event keeps the continuity exactly if it is sound; only a clear from memory can fail to be. */
  lemma StepIsContinuous(a: Agent, e: Event)
    requires Continuous(a) && ProperEvent(a, e)
    ensures Continuous(Step(a, e)) <==> Sound(a, e)
  {
    hide LoadConfig, Continuous, Cleared, Enrolled, JoinKeySet, Settable, TrimSpace, Config.KeptToken,
         Config.RefusesReset;
    match e
    case Enroll(token, publicKey, io) =>
      if token != "" {
        EnrollIsContinuous(a, token, publicKey, Step(a, e).memory);
      }
    case SetJoinKey(key, ok) =>
      if ok {
        JoinKeyIsContinuous(a, key);
      }
    case Reset(_) => ClearIsContinuous(a, a.memory.KeptToken(), Step(a, e).memory);
    case CliReset(_, _) =>
      var c := LoadConfig(a.doc);
      ClearIsContinuous(a, c.KeptToken(), a.memory);
      if !c.RefusesReset() {
        FileIsFit(a);
      }
    case Load(_) => MemoryIsApart(a, LoadConfig(a.doc));
  }

  ghost predicate StaysContinuous(a: Agent, events: seq<Event>) {
    forall k :: 0 <= k <= |events| ==> Continuous(Run(a, events[..k]))
  }

  ghost predicate SoundRun(a: Agent, events: seq<Event>) {
    forall i :: 0 <= i < |events| ==> Sound(Run(a, events[..i]), events[i])
  }

  lemma LastState(a: Agent, events: seq<Event>)
    requires events != []
    ensures var n := |events| - 1;
      StaysContinuous(a, events) <==> StaysContinuous(a, events[..n]) && Continuous(Run(a, events))
  {
    hide Run, Continuous;
    var n := |events| - 1;
    assert events[..|events|] == events;
    assert forall k :: 0 <= k <= n ==> events[..n][..k] == events[..k];
    if StaysContinuous(a, events[..n]) && Continuous(Run(a, events)) {
      forall k | 0 <= k <= |events|
        ensures Continuous(Run(a, events[..k]))
      {
        if k <= n {
          assert Continuous(Run(a, events[..n][..k]));
        }
      }
    }
    if StaysContinuous(a, events) {
      assert Continuous(Run(a, events[..|events|]));
      forall k | 0 <= k <= n
        ensures Continuous(Run(a, events[..n][..k]))
      {
        assert Continuous(Run(a, events[..k]));
      }
    }
  }

  lemma LastOfStates(a: Agent, events: seq<Event>)
    requires StaysContinuous(a, events)
    ensures Continuous(Run(a, events))
  {
    hide Run, Continuous;
    assert Continuous(Run(a, events[..|events|]));
    assert events[..|events|] == events;
  }

  lemma LastEvent(a: Agent, events: seq<Event>)
    requires events != []
    ensures var n := |events| - 1;
      && (SoundRun(a, events) <==> SoundRun(a, events[..n]) && Sound(Run(a, events[..n]), events[n]))
      && (ProperEvents(a, events) ==> ProperEvents(a, events[..n]) && ProperEvent(Run(a, events[..n]), events[n]))
  {
    hide Run, Sound, ProperEvent;
    var n := |events| - 1;
    assert forall i :: 0 <= i < n ==> events[..n][..i] == events[..i] && events[..n][i] == events[i];
  }

  /**
   Over every run of enrolments, clears, reloads and edits by the CLI, whatever
   fails in them: the file always holds a credential, and the last token ever stored
   as the token or as the continuity proof, exactly if each clear from memory that
   is written finds a join key in the file and keeps the last token.
   */
  lemma {:induction false} EnrolmentIsContinuous(a: Agent, events: seq<Event>)
    requires Continuous(a) && ProperEvents(a, events)
    ensures StaysContinuous(a, events) <==> SoundRun(a, events)
  {
    hide Step, ProperEvent, LoadConfig, TrimSpace, StaysContinuous, SoundRun, ProperEvents, Continuous, Sound;
    if events == [] {
      NoEvents(a);
    } else {
      var n := |events| - 1;
      LastEvent(a, events);
      LastState(a, events);
      EnrolmentIsContinuous(a, events[..n]);
      if StaysContinuous(a, events[..n]) {
        LastOfStates(a, events[..n]);
        StepIsContinuous(Run(a, events[..n]), events[n]);
      }
    }
  }

  lemma NoEvents(a: Agent)
    requires Continuous(a)
    ensures StaysContinuous(a, []) && SoundRun(a, [])
  {
    hide Continuous, Sound;
    var none: seq<Event> := [];
    assert none[..0] == none;
  }

  /** Every clear from memory is made with what the file loads to. */
  ghost predicate FreshRun(a: Agent, events: seq<Event>) {
    forall i :: 0 <= i < |events| && events[i].Reset? ==>
      var r := Run(a, events[..i]); r.memory == LoadConfig(r.doc)
  }

  /**
   With a token in the file the dial presents the last one ever stored and nothing
   else, whatever join key there is; without one it presents the join key of the file
   and, as the proof of which host this was, the last token if there ever was one.
   */
  ghost predicate Dials(a: Agent) {
    var (token, joinKey) := (ReadScalar(a.doc, AUTH_TOKEN), ReadScalar(a.doc, JOIN_KEY));
    if token != "" then a.memory.Credential() == token == a.last && a.memory.PrevToken() == ""
    else a.memory.Credential() == joinKey != "" && (a.last != "" ==> a.memory.PrevToken() == a.last)
  }

  lemma FreshDial(a: Agent)
    requires Continuous(a) && a.memory == LoadConfig(a.doc)
    ensures Dials(a)
  {
    hide ReadScalar, TopLevelKeys, TrimSpace;
  }

  /**
   A clear from fresh memory with operations that succeed: refused exactly where it
   would leave nothing to dial with, and otherwise the next dial presents the file's
   join key and the last token.
   */
  lemma ResetOutcome(a: Agent)
    requires Continuous(a) && a.memory == LoadConfig(a.doc)
    ensures var (r, joinKey) := (Step(a, Reset(FileIO(true, true, true, true))), ReadScalar(a.doc, JOIN_KEY));
      if joinKey == "" then r == a
      else r.memory.Credential() == joinKey && (a.last != "" ==> r.memory.PrevToken() == a.last)
           && r.last == a.last && r.memory == LoadConfig(r.doc) && ReadScalar(r.doc, AUTH_TOKEN) == ""
  {
    ResetStep(a);
    if !a.memory.RefusesReset() {
      ClearedReads(a.doc, a.memory.KeptToken());
      FileIsFit(a);
    }
    TrimmedLast(a);
    hide ReadScalar, TopLevelKeys, TrimSpace, Cleared, Config.KeptToken, Step;
  }

  lemma ResetStep(a: Agent)
    ensures Step(a, Reset(FileIO(true, true, true, true)))
         == if a.memory.RefusesReset() then a
            else var doc := Cleared(a.doc, a.memory.KeptToken()); Agent(doc, LoadConfig(doc), a.last)
  {
    hide LoadConfig, Cleared, Config.KeptToken, Config.RefusesReset;
  }

  lemma TrimmedLast(a: Agent)
    requires Continuous(a)
    ensures TrimSpace(a.last) == a.last
  {
    hide LoadConfig, TopLevelKeys, TrimSpace;
  }

  /** So does a run in which memory is fresh for each clear, and a dial from fresh memory presents what it should. */
  lemma {:induction false} FreshRunIsContinuous(a: Agent, events: seq<Event>)
    requires Continuous(a) && ProperEvents(a, events) && FreshRun(a, events)
    ensures Continuous(Run(a, events))
    ensures var r := Run(a, events); r.memory == LoadConfig(r.doc) ==> Dials(r)
  {
    hide Step, ProperEvent, LoadConfig, TrimSpace, ProperEvents, Sound, Dials, Continuous;
    if events != [] {
      var n := |events| - 1;
      assert forall i :: 0 <= i < n ==> events[..n][..i] == events[..i] && events[..n][i] == events[i];
      LastEvent(a, events);
      FreshRunIsContinuous(a, events[..n]);
      var before := Run(a, events[..n]);
      StepIsContinuous(before, events[n]);
      if events[n].Reset? {
        FreshIsSound(before, events[n]);
      } else {
        OnlyResetsFail(before, events[n]);
      }
    }
    var r := Run(a, events);
    if r.memory == LoadConfig(r.doc) {
      FreshDial(r);
    }
  }

  lemma OnlyResetsFail(a: Agent, e: Event)
    requires !e.Reset?
    ensures Sound(a, e)
  {
  }

  /** The continuity proof a clear leaves is the one in memory, whatever the file holds. */
  lemma ClearTrustsMemory(doc: string, memory: Config)
    requires TopLevelKeys(doc)
    ensures LoadConfig(Cleared(doc, memory.KeptToken())).PrevToken() == TrimSpace(memory.KeptToken())
  {
    ClearedReads(doc, memory.KeptToken());
  }

  /**
   An enrolment whose chmod fails has written the token but not loaded it; a
   clear from that memory forgets the token, and leaves nothing to dial with.
   */
  lemma StaleMemoryLosesToken(doc: string, token: string, publicKey: string, memory: Config)
    requires TopLevelKeys(doc) && memory == LoadConfig(doc) && token != ""
    requires memory.authToken == "" && memory.prevAuthToken == ""
    ensures LoadConfig(Enrolled(doc, token, publicKey)).Credential() == token
    ensures !memory.RefusesReset()
    ensures var c := LoadConfig(Cleared(Enrolled(doc, token, publicKey), memory.KeptToken()));
      c.PrevToken() == "" && c.Credential() == ""
  {
    EnrolledReads(doc, token, publicKey);
    hide Enrolled, Cleared, LoadConfig, TopLevelKeys;
    ClearedReads(Enrolled(doc, token, publicKey), memory.KeptToken());
    assert TrimSpace("") == "";
  }
}
