/** When the tunnel runs: the home state, auto-VPN and the pushed configuration. Times are in seconds. */
module TunnelPolicy {
  import opened Results

  const GATE := 120

  datatype Exit = Exit(siteId: int, isLocal: bool)

  /** The home state, the time of the last auto-VPN change (none for the zero time), and whether the tunnel is up. */
  datatype State = State(
    homeSiteId: int,
    currentExit: Option<int>,
    exits: seq<Exit>,
    isHome: bool,
    homeKnown: bool,
    autoVPN: bool,
    vpnActive: bool,
    lastChange: Option<int>,
    up: bool)

  // ----- The policy -----

  /** The first listed exit at a site decides whether that site is the device's own. */
  function ListedAsRemote(exits: seq<Exit>, site: int): bool {
    if exits == [] then true
    else if exits[0].siteId == site then !exits[0].isLocal
    else ListedAsRemote(exits[1..], site)
  }

  function RemoteExit(s: State): bool {
    match s.currentExit
    case None => false
    case Some(site) => if s.homeSiteId > 0 then site != s.homeSiteId else ListedAsRemote(s.exits, site)
  }

  /** Up when away, and up at home exactly for an exit through another site. */
  function ShouldBeUp(s: State, isHome: bool): bool {
    !isHome || RemoteExit(s)
  }

  /** The same question for callers other than the monitor. */
  function WantUp(s: State): bool {
    if RemoteExit(s) then true
    else if !s.autoVPN then s.up
    else if !s.homeKnown then false
    else ShouldBeUp(s, s.isHome)
  }

  // ----- Events -----

  datatype Event =
    /** One run of the monitor: home is its fresh answer; ok is the result of an operation it makes. */
    | Tick(now: int, home: bool, connected: bool, enabled: bool, ok: bool)
    /** A verified wireguard_apply with its configuration. */
    | Push(siteId: int, exit: Option<int>, persistOk: bool, disconnectOk: bool, applyOk: bool)
    | Remove(ok: bool)
    /** The directory's answer to the enrolment of this host's key. */
    | Enrolled(siteId: int, exit: Option<int>)
    | Exits(exits: seq<Exit>, current: Option<int>)
    | SetAuto(value: bool)
    | TrayConnect(ok: bool)
    | TrayDisconnect(ok: bool)
    /** The tunnel changed by other hands. */
    | Outside(up: bool)

  /** The state that auto-VPN asks for in a tick, if it acts at all. */
  function Attempt(s: State, e: Event): Option<bool>
    requires e.Tick?
  {
    if !e.enabled || !s.autoVPN || !e.connected then None
    else if s.lastChange.Some? && e.now - s.lastChange.value < GATE then None
    else if ShouldBeUp(s, e.home) == s.up then None
    else Some(ShouldBeUp(s, e.home))
  }

  function AfterTick(s: State, e: Event): State
    requires e.Tick?
  {
    var known := s.(isHome := e.home, homeKnown := true);
    if !e.enabled then known
    else
      match Attempt(s, e)
      case None => known.(vpnActive := s.up)
      case Some(want) => known.(vpnActive := s.up, lastChange := Some(e.now), up := if e.ok then want else s.up)
  }

  function Identify(s: State, siteId: int, exit: Option<int>): State {
    s.(homeSiteId := if siteId > 0 then siteId else s.homeSiteId, currentExit := exit)
  }

  /** Whether a push is reported as done. */
  predicate PushDone(s: State, e: Event)
    requires e.Push?
  {
    e.persistOk && (WantUp(Identify(s, e.siteId, e.exit)) ==> e.applyOk)
  }

  function AfterPush(s: State, e: Event): State
    requires e.Push?
  {
    var t := Identify(s, e.siteId, e.exit);
    if !e.persistOk then t
    else if !WantUp(t) then t.(up := t.up && !e.disconnectOk, vpnActive := false)
    else if !e.applyOk then t
    else t.(up := true, vpnActive := true)
  }

  function Step(s: State, e: Event): State {
    match e
    case Tick(_, _, _, _, _) => AfterTick(s, e)
    case Push(_, _, _, _, _) => AfterPush(s, e)
    case Remove(ok) => if ok then s.(up := false, vpnActive := false) else s
    case Enrolled(siteId, exit) => Identify(s, siteId, exit)
    case Exits(exits, current) => Identify(s, 0, current).(exits := exits)
    case SetAuto(value) => s.(autoVPN := value)
    case TrayConnect(ok) => if ok then s.(up := true, vpnActive := true) else s
    case TrayDisconnect(ok) => if ok then s.(up := false, vpnActive := false) else s
    case Outside(up) => s.(up := up)
  }

  // ----- The monitor as the agent runs it -----

  class Monitor {
    var homeSiteId: int
    var currentExit: Option<int>
    var exits: seq<Exit>
    var isHome: bool
    var homeKnown: bool
    var autoVPN: bool
    var vpnActive: bool
    var lastAutoVPNChange: Option<int>
    /** The state of the platform, not of the agent. */
    var up: bool

    function Now(): State
      reads this
    {
      State(homeSiteId, currentExit, exits, isHome, homeKnown, autoVPN, vpnActive, lastAutoVPNChange, up)
    }

    method SetMeshIdentity(siteId: int, exit: Option<int>)
      modifies this
      ensures Now() == Identify(old(Now()), siteId, exit)
    {
      if siteId > 0 {
        homeSiteId := siteId;
      }
      currentExit := exit;
    }

    /** What refreshing the exit list does. */
    method RefreshExits(list: seq<Exit>, current: Option<int>)
      modifies this
      ensures Now() == Step(old(Now()), Exits(list, current))
    {
      exits := list;
      currentExit := current;
      SetMeshIdentity(0, current);
    }

    method SetHomeState(home: bool)
      modifies this
      ensures Now() == old(Now()).(isHome := home, homeKnown := true)
    {
      isHome := home;
      homeKnown := true;
    }

    method RemoteExitSelected() returns (remote: bool)
      ensures remote == RemoteExit(Now())
      ensures remote <==> ExitsElsewhere(homeSiteId, currentExit, exits)
    {
      RemoteExitIsElsewhere(Now());
      hide ExitsElsewhere;
      if currentExit.None? {
        return false;
      }
      if homeSiteId > 0 {
        return currentExit.value != homeSiteId;
      }
      for i := 0 to |exits|
        invariant RemoteExit(Now()) == ListedAsRemote(exits[i..], currentExit.value)
      {
        if exits[i].siteId == currentExit.value {
          return !exits[i].isLocal;
        }
      }
      return true;
    }

    method TunnelShouldBeUp(home: bool) returns (want: bool)
      ensures want == ShouldBeUp(Now(), home)
    {
      if !home {
        return true;
      }
      want := RemoteExitSelected();
    }

    method WantWireGuardUp() returns (want: bool)
      ensures want == WantUp(Now())
    {
      var remote := RemoteExitSelected();
      if remote {
        return true;
      }
      if !autoVPN {
        return up;
      }
      if !homeKnown {
        return false;
      }
      want := TunnelShouldBeUp(isHome);
    }

    method Operate(want: bool, ok: bool)
      modifies this
      ensures Now() == old(Now()).(up := if ok then want else old(up))
    {
      if ok {
        up := want;
      }
    }

    /** Works on the tunnel state and preference that its caller read. */
    method HandleAutoVPN(now: int, home: bool, vpn: bool, auto: bool, connected: bool, ok: bool)
      modifies this
      ensures var before := old(Now());
        Now() == match Attempt(before.(up := vpn, autoVPN := auto), Tick(now, home, connected, true, ok))
          case None => before
          case Some(want) => before.(lastChange := Some(now), up := if ok then want else before.up)
    {
      if !auto || !connected {
        return;
      }
      if lastAutoVPNChange.Some? && now - lastAutoVPNChange.value < GATE {
        return;
      }
      var want := TunnelShouldBeUp(home);
      if want == vpn {
        return;
      }
      if !want {
        Operate(false, ok);
        lastAutoVPNChange := Some(now);
        return;
      }
      Operate(true, ok);
      lastAutoVPNChange := Some(now);
    }

    method CheckAndPush(now: int, home: bool, connected: bool, enabled: bool, ok: bool)
      modifies this
      ensures Now() == Step(old(Now()), Tick(now, home, connected, enabled, ok))
    {
      var auto := autoVPN;
      SetHomeState(home);
      if enabled {
        var vpn := up;
        vpnActive := vpn;
        HandleAutoVPN(now, home, vpn, auto, connected, ok);
      }
    }

    /** A wireguard_apply whose signature, capability and configuration are in order. */
    method ApplyPush(siteId: int, exit: Option<int>, persistOk: bool, disconnectOk: bool, applyOk: bool)
      returns (done: bool)
      modifies this
      ensures Now() == Step(old(Now()), Push(siteId, exit, persistOk, disconnectOk, applyOk))
      ensures done == PushDone(old(Now()), Push(siteId, exit, persistOk, disconnectOk, applyOk))
    {
      SetMeshIdentity(siteId, exit);
      if !persistOk {
        return false;
      }
      var want := WantWireGuardUp();
      if !want {
        if up {
          Operate(false, disconnectOk);
        }
        vpnActive := false;
        return true;
      }
      Operate(true, applyOk);
      if !applyOk {
        return false;
      }
      vpnActive := true;
      return true;
    }

    method RemoveTunnel(ok: bool)
      modifies this
      ensures Now() == Step(old(Now()), Remove(ok))
    {
      Operate(false, ok);
      if ok {
        vpnActive := false;
      }
    }

    method SetAutoVPN(value: bool)
      modifies this
      ensures Now() == Step(old(Now()), SetAuto(value))
    {
      autoVPN := value;
    }

    method Connect(ok: bool)
      modifies this
      ensures Now() == Step(old(Now()), TrayConnect(ok))
    {
      Operate(true, ok);
      if ok {
        vpnActive := true;
      }
    }

    method Disconnect(ok: bool)
      modifies this
      ensures Now() == Step(old(Now()), TrayDisconnect(ok))
    {
      Operate(false, ok);
      if ok {
        vpnActive := false;
      }
    }
  }

  // ----- The policy on the fields -----

  /** Entry i is the first that lists the site. */
  predicate FirstListed(exits: seq<Exit>, site: int, i: nat) {
    i < |exits| && exits[i].siteId == site && forall j :: 0 <= j < i ==> exits[j].siteId != site
  }

  /** The exit list flags no first entry of the site as the device's own. */
  lemma {:induction false} ListedAsRemoteExactly(exits: seq<Exit>, site: int)
    ensures ListedAsRemote(exits, site) <==> forall i: nat :: FirstListed(exits, site, i) ==> !exits[i].isLocal
  {
    if exits != [] {
      ListedAsRemoteExactly(exits[1..], site);
      if exits[0].siteId == site {
        assert FirstListed(exits, site, 0);
      } else {
        forall i: nat
          ensures FirstListed(exits, site, i) <==> i > 0 && FirstListed(exits[1..], site, i - 1)
        {
          assert i > 0 && i < |exits| ==> exits[i] == exits[1..][i - 1];
          assert forall j :: 0 < j < |exits| ==> exits[j] == exits[1..][j - 1];
        }
        assert forall i: nat :: FirstListed(exits[1..], site, i) ==> FirstListed(exits, site, i + 1);
      }
    }
  }

  /**
   An exit is selected, and it is another site: by the device's site where that is
   known, and else by the exit list, where an exit that is not listed is another one.
   */
  ghost predicate ExitsElsewhere(homeSiteId: int, currentExit: Option<int>, exits: seq<Exit>) {
    currentExit.Some?
    && (homeSiteId > 0 ==> currentExit.value != homeSiteId)
    && (homeSiteId <= 0 ==> forall i: nat :: FirstListed(exits, currentExit.value, i) ==> !exits[i].isLocal)
  }

  lemma RemoteExitIsElsewhere(s: State)
    ensures RemoteExit(s) <==> ExitsElsewhere(s.homeSiteId, s.currentExit, s.exits)
  {
    if s.currentExit.Some? {
      ListedAsRemoteExactly(s.exits, s.currentExit.value);
    }
    hide ListedAsRemote, FirstListed;
  }

  /**
   One tick: it records the answer; auto-VPN acts if it is on, its switch is on and
   the host is connected, two minutes after the last change or later, and the tunnel
   is not as it should be: up away from home and, at home, for an exit elsewhere.
   */
  lemma TickOutcome(s: State, now: int, home: bool, connected: bool, enabled: bool, ok: bool)
    ensures var want := !home || ExitsElsewhere(s.homeSiteId, s.currentExit, s.exits);
      var acts := enabled && s.autoVPN && connected && want != s.up
                  && (s.lastChange.Some? ==> now - s.lastChange.value >= 120);
      Step(s, Tick(now, home, connected, enabled, ok))
      == State(s.homeSiteId, s.currentExit, s.exits, home, true, s.autoVPN, if enabled then s.up else s.vpnActive,
               if acts then Some(now) else s.lastChange, if acts && ok then want else s.up)
  {
    RemoteExitIsElsewhere(s);
    hide RemoteExit, ExitsElsewhere;
  }

  /**
   One push: the site is taken if it is known, the exit in any case; the tunnel is
   wanted for an exit elsewhere, as it is where auto-VPN is off, and otherwise when
   away from home as far as that has been measured.
   */
  lemma PushOutcome(s: State, siteId: int, exit: Option<int>, persistOk: bool, disconnectOk: bool, applyOk: bool)
    ensures var (e, site) := (Push(siteId, exit, persistOk, disconnectOk, applyOk),
                              if siteId > 0 then siteId else s.homeSiteId);
      var want := ExitsElsewhere(site, exit, s.exits) || if s.autoVPN then s.homeKnown && !s.isHome else s.up;
      var up := if !persistOk then s.up else if want then s.up || applyOk else s.up && !disconnectOk;
      && (PushDone(s, e) <==> persistOk && (want ==> applyOk))
      && Step(s, e) == State(site, exit, s.exits, s.isHome, s.homeKnown, s.autoVPN,
                             if PushDone(s, e) then want else s.vpnActive, s.lastChange, up)
  {
    var t := Identify(s, siteId, exit);
    RemoteExitIsElsewhere(t);
    hide RemoteExit, ExitsElsewhere;
  }

  /** The other events change what they say and nothing else; an unknown site never replaces a known one. */
  lemma OtherOutcomes(s: State, siteId: int, exit: Option<int>, exits: seq<Exit>, flag: bool)
    ensures Step(s, Enrolled(siteId, exit))
         == s.(homeSiteId := if siteId <= 0 then s.homeSiteId else siteId, currentExit := exit)
    ensures Step(s, Exits(exits, exit)) == s.(exits := exits, currentExit := exit)
    ensures Step(s, Remove(flag)) == Step(s, TrayDisconnect(flag))
         == s.(up := s.up && !flag, vpnActive := s.vpnActive && !flag)
    ensures Step(s, TrayConnect(flag)) == s.(up := s.up || flag, vpnActive := s.vpnActive || flag)
    ensures Step(s, SetAuto(flag)) == s.(autoVPN := flag) && Step(s, Outside(flag)) == s.(up := flag)
  {
  }

  // ----- Runs -----

  function Run(s: State, events: seq<Event>): State {
    if events == [] then s else Step(Run(s, events[..|events| - 1]), events[|events| - 1])
  }

  /** The times of the attempts that auto-VPN makes in a run. */
  function Attempts(s: State, events: seq<Event>): seq<int> {
    if events == [] then []
    else
      var (front, e) := (events[..|events| - 1], events[|events| - 1]);
      if e.Tick? && Attempt(Run(s, front), e).Some? then Attempts(s, front) + [e.now] else Attempts(s, front)
  }

  /** Only an attempt of auto-VPN moves the time of the last change, and only past the gate. */
  lemma StepMovesChange(s: State, e: Event)
    ensures Step(s, e).lastChange == if e.Tick? && Attempt(s, e).Some? then Some(e.now) else s.lastChange
    ensures e.Tick? && Attempt(s, e).Some? && s.lastChange.Some? ==> e.now - s.lastChange.value >= GATE
  {
    hide RemoteExit, WantUp, ShouldBeUp;
  }

  predicate Spaced(times: seq<int>) {
    forall i :: 0 < i < |times| ==> times[i] - times[i - 1] >= GATE
  }

  /** In every run, whatever the clock does, auto-VPN attempts are at least two minutes apart. */
  lemma {:induction false} AttemptsAreSpaced(s: State, events: seq<Event>)
    ensures Spaced(Attempts(s, events))
    ensures Attempts(s, events) != [] ==>
      Run(s, events).lastChange == Some(Attempts(s, events)[|Attempts(s, events)| - 1])
    ensures Attempts(s, events) == [] ==> Run(s, events).lastChange == s.lastChange
  {
    hide Step, Attempt;
    if events != [] {
      AttemptsAreSpaced(s, events[..|events| - 1]);
      StepMovesChange(Run(s, events[..|events| - 1]), events[|events| - 1]);
    }
  }

  // ----- Fixed inputs -----

  /** Ticks of a connected host at these times, always with the same answer and with operations that succeed. */
  function Ticks(times: seq<int>, home: bool): seq<Event> {
    seq(|times|, i requires 0 <= i < |times| => Tick(times[i], home, true, true, true))
  }

  /** Times at least as far apart as the monitor's ticker makes them. */
  predicate Minutes(times: seq<int>) {
    forall i :: 0 < i < |times| ==> times[i] - times[i - 1] >= 60
  }

  predicate SameInputs(s: State, t: State) {
    t.homeSiteId == s.homeSiteId && t.currentExit == s.currentExit && t.exits == s.exits && t.autoVPN == s.autoVPN
  }

  predicate Settling(s: State, t: State, attempts: seq<int>, n: nat, want: bool) {
    && SameInputs(s, t)
    && (attempts == [] ==> t.up == s.up && t.lastChange == s.lastChange && (n >= 3 ==> t.up == want))
    && (attempts != [] ==> |attempts| == 1 && t.up == want && s.up != want)
  }

  lemma SettlingStep(s: State, t: State, attempts: seq<int>, n: nat, now: int, home: bool)
    requires s.autoVPN && Settling(s, t, attempts, n, ShouldBeUp(s, home))
    requires n == 2 && s.lastChange.Some? ==> now - s.lastChange.value >= GATE
    ensures var e := Tick(now, home, true, true, true);
      Settling(s, Step(t, e), if Attempt(t, e).Some? then attempts + [now] else attempts, n + 1, ShouldBeUp(s, home))
  {
    assert RemoteExit(t) == RemoteExit(s);
    hide RemoteExit;
  }

  lemma {:induction false} Settles(s: State, times: seq<int>, home: bool)
    requires s.autoVPN && Minutes(times) && (s.lastChange.Some? && times != [] ==> s.lastChange.value <= times[0])
    ensures Settling(s, Run(s, Ticks(times, home)), Attempts(s, Ticks(times, home)), |times|, ShouldBeUp(s, home))
  {
    hide Settling, Step, Attempt, ShouldBeUp;
    var n := |times| - 1;
    if times == [] {
      SettledAtFirst(s, ShouldBeUp(s, home));
    } else {
      Settles(s, times[..n], home);
      var (events, front) := (Ticks(times, home), Ticks(times[..n], home));
      assert events[..n] == front && events[n] == Tick(times[n], home, true, true, true);
      SettlingStep(s, Run(s, front), Attempts(s, front), n, times[n], home);
    }
  }

  lemma SettledAtFirst(s: State, want: bool)
    ensures Settling(s, s, [], 0, want)
  {
  }

  /**
   With auto-VPN on and nothing else changing, three ticks bring the tunnel to
   the policy with one attempt, or none if it was there, and later ticks do nothing.
   */
  lemma SettlesInThreeTicks(s: State, times: seq<int>, home: bool)
    requires s.autoVPN && Minutes(times) && |times| >= 3 && (s.lastChange.Some? ==> s.lastChange.value <= times[0])
    ensures Run(s, Ticks(times, home)).up == ShouldBeUp(s, home)
    ensures |Attempts(s, Ticks(times, home))| == if s.up == ShouldBeUp(s, home) then 0 else 1
    ensures |Attempts(s, Ticks(times[..3], home))| == |Attempts(s, Ticks(times, home))|
  {
    hide Run, Attempts, Ticks, ShouldBeUp;
    Settles(s, times, home);
    Settles(s, times[..3], home);
  }

  /**
   At home three ticks leave the tunnel up exactly if an exit is selected that is
   another site; away from home they leave it up in any case.
   */
  lemma TunnelAfterThreeTicks(s: State, times: seq<int>)
    requires s.autoVPN && Minutes(times) && |times| >= 3 && (s.lastChange.Some? ==> s.lastChange.value <= times[0])
    ensures Run(s, Ticks(times, true)).up <==>
      s.currentExit.Some?
      && if s.homeSiteId > 0 then s.currentExit.value != s.homeSiteId
         else forall i: nat :: FirstListed(s.exits, s.currentExit.value, i) ==> !s.exits[i].isLocal
    ensures Run(s, Ticks(times, false)).up
  {
    SettlesInThreeTicks(s, times, true);
    SettlesInThreeTicks(s, times, false);
    RemoteExitIsElsewhere(s);
    hide Run, Ticks, RemoteExit, FirstListed;
  }

  /** Two ticks are not enough right after a change. */
  lemma TwoTicksDoNotSettle(s: State, t0: int, home: bool)
    requires s.lastChange == Some(t0) && s.up != ShouldBeUp(s, home)
    ensures Run(s, Ticks([t0, t0 + 60], home)).up != ShouldBeUp(s, home)
  {
    var (one, two) := (Ticks([t0], home), Ticks([t0, t0 + 60], home));
    assert two[..1] == one && one[..0] == [];
    assert RemoteExit(Run(s, one)) == RemoteExit(s);
    hide RemoteExit;
    assert Run(s, one).up == s.up && Run(s, one).lastChange == s.lastChange;
  }

  // ----- Pushes and ticks -----

  /** No tick with this answer acts, at whatever time and connection. */
  ghost predicate LeavesAlone(s: State, home: bool) {
    forall now, connected, enabled, ok :: Attempt(s, Tick(now, home, connected, enabled, ok)).None?
  }

  lemma LeftAloneExactly(s: State, home: bool)
    ensures LeavesAlone(s, home) <==> !s.autoVPN || s.up == ShouldBeUp(s, home)
  {
    hide ShouldBeUp;
    if s.autoVPN && s.up != ShouldBeUp(s, home) {
      var now := if s.lastChange.Some? then s.lastChange.value + GATE else 0;
      assert Attempt(s, Tick(now, home, true, true, true)).Some?;
    }
  }

  /**
   A push that is reported as done, with home measured, is undone by no tick while
   the answer stays the same, exactly unless auto-VPN is on at home with no remote
   exit and the tunnel failed to go down.
   */
  lemma PushIsNotUndone(s: State, push: Event)
    requires push.Push? && PushDone(s, push) && s.homeKnown
    ensures LeavesAlone(AfterPush(s, push), s.isHome) <==>
      !s.autoVPN || RemoteExit(AfterPush(s, push)) || !s.isHome || !s.up || push.disconnectOk
  {
    LeftAloneExactly(AfterPush(s, push), s.isHome);
    PushKeepsExit(s, push);
    hide RemoteExit, LeavesAlone;
  }

  lemma PushKeepsExit(s: State, push: Event)
    requires push.Push?
    ensures RemoteExit(AfterPush(s, push)) == RemoteExit(Identify(s, push.siteId, push.exit))
  {
  }

  /**
   Before the first measurement a push without a remote exit leaves the tunnel
   down, unless it fails to go down; so a tick then acts exactly when it finds
   the host away with the tunnel down, or home with a tunnel that stayed up.
   */
  lemma PushBeforeMeasurement(s: State, push: Event, home: bool)
    requires push.Push? && PushDone(s, push) && !s.homeKnown
    ensures LeavesAlone(AfterPush(s, push), home) <==>
      !s.autoVPN || RemoteExit(AfterPush(s, push)) || (home <==> (!s.up || push.disconnectOk))
  {
    LeftAloneExactly(AfterPush(s, push), home);
    PushKeepsExit(s, push);
    hide RemoteExit, LeavesAlone;
  }

  /** A user who drives the tunnel by hand finds it after a push as it was, unless the push selects a remote exit. */
  lemma PushKeepsManualTunnel(s: State, push: Event)
    requires push.Push? && PushDone(s, push) && !s.autoVPN
    ensures AfterPush(s, push).up == (s.up || RemoteExit(AfterPush(s, push)))
  {
    PushKeepsExit(s, push);
    hide RemoteExit;
  }

  /** From such a push on, every later tick with the same answer leaves the tunnel alone. */
  lemma PushThenTicks(s: State, push: Event, times: seq<int>)
    requires push.Push? && PushDone(s, push) && s.homeKnown && s.autoVPN
    requires RemoteExit(AfterPush(s, push)) || !s.isHome || !s.up || push.disconnectOk
    requires Minutes(times) && (s.lastChange.Some? && times != [] ==> s.lastChange.value <= times[0])
    ensures Attempts(AfterPush(s, push), Ticks(times, s.isHome)) == []
    ensures Run(AfterPush(s, push), Ticks(times, s.isHome)).up == ShouldBeUp(AfterPush(s, push), s.isHome)
  {
    var t := AfterPush(s, push);
    PushIsNotUndone(s, push);
    LeftAloneExactly(t, s.isHome);
    assert t.autoVPN && t.lastChange == s.lastChange;
    hide AfterPush, RemoteExit, ShouldBeUp, LeavesAlone, Run, Attempts, Ticks;
    Settles(t, times, s.isHome);
  }
}
