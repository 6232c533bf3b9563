/** The discovery controller that commits, re-checks and reverts a hosts override: local_discovery.go. */
module LocalDiscovery {
  import opened Results
  import opened HostsOverride

  /**
   What one poll meets: the announced address ("" for none), what the name
   resolves to already, the certificate check for the address, and whether the
   hosts file and the route table let themselves be read and changed.
   */
  datatype Observation = Observation(ip: string, resolved: string, safe: bool,
                                     readable: bool, writable: bool, pinOk: bool, unpinOk: bool)
  {
    predicate FileOk() {
      readable && writable
    }
  }

  /** The controller, the file and the routes it manages, and the pending notification. */
  datatype State = State(content: Option<string>, lastIP: string, overridden: bool,
                         pinned: set<string>, signalled: bool)
  {
    function Text(): string {
      if content.Some? then content.value else ""
    }
  }

  ghost function Write(s: State, entries: seq<Entry>, eol: string): State {
    s.(content := Some(Applied(s.Text(), entries, eol)))
  }

  ghost function Revert(s: State, o: Observation, eol: string): State {
    if !o.FileOk() then s
    else
      Write(s, [], eol).(lastIP := "", overridden := false, signalled := true,
                         pinned := if s.lastIP != "" && o.unpinOk then s.pinned - {s.lastIP} else s.pinned)
  }

  ghost function Commit(s: State, o: Observation, target: string, eol: string): State {
    if o.resolved == o.ip || !o.safe || !o.FileOk() then s
    else
      Write(s, [Entry(o.ip, target)], eol).(lastIP := o.ip, overridden := true, signalled := true,
                                            pinned := if o.pinOk then s.pinned + {o.ip} else s.pinned)
  }

  /** One cycle of the loop. */
  ghost function Step(s: State, o: Observation, target: string, eol: string): State {
    if o.ip != "" && !s.overridden then Commit(s, o, target, eol)
    else if s.overridden && (o.ip == "" || o.ip != s.lastIP || !o.safe) then Revert(s, o, eol)
    else s
  }

  class Discovery {
    const target: string
    const hosts: HostsFile
    var lastIP: string
    var overridden: bool
    var pinned: set<string>
    var signalled: bool
    /** The override is enabled, and the server's URL names a host. */
    const active: bool

    ghost function Current(): State
      reads this, hosts
    {
      State(hosts.content, lastIP, overridden, pinned, signalled)
    }

    /**
     The start of the loop: clear whatever an earlier run left, and carry on even
     when that fails.  Without a host, or with the override disabled, the file is left alone.
     */
    constructor (target: string, enabled: bool, content: Option<string>, eol: string, readable: bool, writable: bool)
      ensures this.target == target && active == (enabled && target != "") && hosts.eol == eol && fresh(hosts)
      ensures Current() == State(
        if active && readable && writable then Some(Applied(if content.Some? then content.value else "", [], eol))
        else content,
        "", false, {}, false)
    {
      this.target := target;
      active := enabled && target != "";
      var file := new HostsFile(content, eol);
      hosts := file;
      lastIP, overridden, pinned, signalled := "", false, {}, false;
      new;
      if active {
        var ok := hosts.ApplyHostsOverride([], readable, writable);
      }
    }

    method Cycle(o: Observation)
      modifies this, hosts
      ensures Current() == if active then Step(old(Current()), o, target, hosts.eol) else old(Current())
    {
      hide Applied;
      if !active {
        return;
      }
      if o.ip != "" && !overridden {
        if o.resolved == o.ip {
        } else if !o.safe {
        } else {
          var ok := hosts.ApplyHostsOverride([Entry(o.ip, target)], o.readable, o.writable);
          if ok {
            if o.pinOk {
              pinned := pinned + {o.ip};
            }
            lastIP := o.ip;
            overridden := true;
            NotifyDiscoveryChange();
          }
        }
      } else if o.ip != "" && overridden {
        if o.ip != lastIP {
          RevertOverride(o);
        } else if !o.safe {
          RevertOverride(o);
        }
      } else if overridden {
        RevertOverride(o);
      }
    }

    method RevertOverride(o: Observation)
      modifies this, hosts
      ensures Current() == Revert(old(Current()), o, hosts.eol)
    {
      hide Applied;
      var ok := hosts.ApplyHostsOverride([], o.readable, o.writable);
      if !ok {
        return;
      }
      if lastIP != "" && o.unpinOk {
        pinned := pinned - {lastIP};
      }
      lastIP := "";
      overridden := false;
      NotifyDiscoveryChange();
    }

    /** A send on a channel of capacity one that never blocks. */
    method NotifyDiscoveryChange()
      modifies this`signalled
      ensures signalled
    {
      signalled := true;
    }
  }

  // ----- Every run -----

  ghost function Run(s: State, polls: seq<Observation>, target: string, eol: string): State {
    if polls == [] then s
    else Step(Run(s, polls[..|polls| - 1], target, eol), polls[|polls| - 1], target, eol)
  }

  /** Addresses that pass the certificate check make proper hosts entries. */
  ghost predicate ProperPoll(o: Observation, target: string) {
    o.safe ==> ValidEntry(Entry(o.ip, target))
  }

  ghost predicate ProperPolls(polls: seq<Observation>, target: string) {
    forall i :: 0 <= i < |polls| ==> ProperPoll(polls[i], target)
  }

  function WantedEntries(s: State, target: string): seq<Entry> {
    if s.overridden then [Entry(s.lastIP, target)] else []
  }

  /**
   The file is the original one with exactly the override the controller believes
   in: the block {target -> lastIP} when it is overridden and no block otherwise.
   Until the first successful write, the file may still be as it was found.
   */
  ghost predicate Consistent(s: State, original: Option<string>, target: string, eol: string) {
    && (s.overridden <==> s.lastIP != "")
    && ValidEntries(WantedEntries(s, target))
    && var text := if original.Some? then original.value else "";
       (s.content == Some(Applied(text, WantedEntries(s, target), eol)) || (!s.overridden && s.content == original))
  }

  /** The initial clear, or any later write, has succeeded. */
  ghost predicate Settled(s: State, original: Option<string>, target: string, eol: string) {
    var text := if original.Some? then original.value else "";
    s.content == Some(Applied(text, WantedEntries(s, target), eol))
  }

  /** A cycle that changes anything has written the file with what the controller then believes in. */
  lemma StepWrites(s: State, o: Observation, target: string, eol: string)
    requires ProperPoll(o, target)
    ensures var r := Step(s, o, target, eol);
      r == s
      || ((r.overridden <==> r.lastIP != "") && ValidEntries(WantedEntries(r, target))
          && r.content == Some(Applied(s.Text(), WantedEntries(r, target), eol)))
  {
    hide Applied, ValidEntry;
  }

  lemma StepKeepsConsistent(s: State, o: Observation, original: Option<string>, target: string, eol: string)
    requires ValidEol(eol) && NoStrayCR(if original.Some? then original.value else "")
    requires Consistent(s, original, target, eol) && ProperPoll(o, target)
    ensures Consistent(Step(s, o, target, eol), original, target, eol)
    ensures Settled(s, original, target, eol) ==> Settled(Step(s, o, target, eol), original, target, eol)
  {
    var text := if original.Some? then original.value else "";
    var r := Step(s, o, target, eol);
    StepWrites(s, o, target, eol);
    hide Step, Applied, NoStrayCR, ValidEol, ValidEntries, WantedEntries, ProperPoll;
    if r != s {
      LastWriteWins(text, WantedEntries(s, target), WantedEntries(r, target), eol);
    }
  }

  /**
   In every run, whatever is announced, however the certificate checks turn out
   and whichever writes fail, the controller and the hosts file agree.
   */
  lemma {:induction false} ControllerAgreesWithFile(s: State, polls: seq<Observation>, original: Option<string>,
                                                    target: string, eol: string)
    requires ValidEol(eol) && NoStrayCR(if original.Some? then original.value else "")
    requires Consistent(s, original, target, eol) && ProperPolls(polls, target)
    ensures Consistent(Run(s, polls, target, eol), original, target, eol)
    ensures Settled(s, original, target, eol) ==> Settled(Run(s, polls, target, eol), original, target, eol)
  {
    hide Consistent, Settled, NoStrayCR, ValidEol, Step;
    if polls != [] {
      var n := |polls| - 1;
      ControllerAgreesWithFile(s, polls[..n], original, target, eol);
      StepKeepsConsistent(Run(s, polls[..n], target, eol), polls[n], original, target, eol);
    }
  }

  /** The file is some file with exactly the override the controller believes in. */
  ghost predicate Held(s: State, target: string, eol: string) {
    && (s.overridden <==> s.lastIP != "")
    && ValidEntries(WantedEntries(s, target))
    && exists text: string :: s.content == Some(Applied(text, WantedEntries(s, target), eol))
  }

  lemma HeldBy(s: State, text: string, target: string, eol: string)
    requires (s.overridden <==> s.lastIP != "") && ValidEntries(WantedEntries(s, target))
    requires s.content == Some(Applied(text, WantedEntries(s, target), eol))
    ensures Held(s, target, eol)
  {
    hide Applied, WantedEntries, ValidEntries;
  }

  lemma RereadIsShrunk(lines: seq<string>, eol: string)
    ensures Shrunk(RereadLines(lines, eol), lines)
  {
    hide Reread;
  }

  /** Whatever the file was, a cycle leaves its kept lines as they were or shorter by carriage returns. */
  lemma StepKeepsHeld(s: State, o: Observation, kept: seq<string>, target: string, eol: string)
    requires ValidEol(eol) && Held(s, target, eol) && Shrunk(Kept(s.Text()), kept) && ProperPoll(o, target)
    ensures Held(Step(s, o, target, eol), target, eol) && Shrunk(Kept(Step(s, o, target, eol).Text()), kept)
  {
    hide Held, Kept, Applied, ValidEntries, ValidEol, Shrunk, Step, WantedEntries, ProperPoll;
    var r := Step(s, o, target, eol);
    StepWrites(s, o, target, eol);
    if r != s {
      HeldBy(r, s.Text(), target, eol);
      ReadBack(s.Text(), WantedEntries(r, target), eol);
      RereadIsShrunk(Kept(s.Text()), eol);
      ShrunkBetween(Kept(r.Text()), Kept(s.Text()), kept);
    }
  }

  lemma {:induction false} RunKeepsHeld(s: State, polls: seq<Observation>, kept: seq<string>,
                                        target: string, eol: string)
    requires ValidEol(eol) && Held(s, target, eol) && Shrunk(Kept(s.Text()), kept) && ProperPolls(polls, target)
    ensures Held(Run(s, polls, target, eol), target, eol) && Shrunk(Kept(Run(s, polls, target, eol).Text()), kept)
  {
    hide Held, Kept, ValidEol, Step, Shrunk, ProperPoll;
    if polls != [] {
      var n := |polls| - 1;
      RunKeepsHeld(s, polls[..n], kept, target, eol);
      StepKeepsHeld(Run(s, polls[..n], target, eol), polls[n], kept, target, eol);
    }
  }

  /** The managed block of a file that is held, and the absence of any marker without an override. */
  lemma HeldReads(s: State, target: string, eol: string)
    requires ValidEol(eol) && Held(s, target, eol)
    ensures Managed(ScanLines(s.Text())) == if s.overridden then [s.lastIP + "\t" + target] else []
    ensures !s.overridden ==> forall l :: l in ScanLines(s.Text()) ==> !IsMarker(l)
  {
    WantedLines(s, target);
    var text: string :| s.content == Some(Applied(text, WantedEntries(s, target), eol));
    assert !s.overridden ==> WantedEntries(s, target) == [];
    hide Applied, ValidEntries, Managed, ScanLines, EntryLines, IsMarker, ValidEol, WantedEntries;
    ReadBack(text, WantedEntries(s, target), eol);
    NoMarkersLeft(text, eol);
  }

  /**
   After a successful initial clear, on every file, the managed block always reads
   {target -> lastIP}, or there is no marker at all; and the other lines are the
   original ones exactly when none of them still ends in a carriage return.
   */
  lemma BlockReadsOverride(s: State, polls: seq<Observation>, original: Option<string>, target: string, eol: string)
    requires ValidEol(eol) && ProperPolls(polls, target)
    requires s == State(Some(Applied(if original.Some? then original.value else "", [], eol)), "", false, {}, false)
    ensures var r := Run(s, polls, target, eol);
      && Managed(ScanLines(r.Text())) == (if r.overridden then [r.lastIP + "\t" + target] else [])
      && (!r.overridden ==> forall l :: l in ScanLines(r.Text()) ==> !IsMarker(l))
      && (r.overridden <==> r.lastIP != "")
      && (Kept(r.Text()) == Kept(if original.Some? then original.value else "")
          <==> NoStrayCR(if original.Some? then original.value else ""))
  {
    var text := if original.Some? then original.value else "";
    var r := Run(s, polls, target, eol);
    ClearedIsHeld(s, text, target, eol);
    hide Run, Step, Applied, Kept, Managed, ScanLines, ValidEol, NoStrayCR, Held, Shrunk, RereadLines, ProperPolls,
         IsMarker;
    var kept := RereadLines(Kept(text), eol);
    RunKeepsHeld(s, polls, kept, target, eol);
    HeldReads(r, target, eol);
    RereadIsShrunk(Kept(text), eol);
    ShrunkBetween(Kept(r.Text()), kept, Kept(text));
    RereadIsIdentity(text, eol);
    if NoStrayCR(text) {
      KeptInRun(s, polls, text, target, eol);
    }
    HeldAgrees(r, target, eol);
  }

  lemma HeldAgrees(s: State, target: string, eol: string)
    requires Held(s, target, eol)
    ensures s.overridden <==> s.lastIP != ""
  {
    hide Applied, ValidEntries;
  }

  lemma ClearedIsHeld(s: State, text: string, target: string, eol: string)
    requires ValidEol(eol) && s == State(Some(Applied(text, [], eol)), "", false, {}, false)
    ensures Held(s, target, eol) && Kept(s.Text()) == RereadLines(Kept(text), eol)
    ensures Shrunk(Kept(s.Text()), RereadLines(Kept(text), eol))
  {
    hide Applied, Kept, RereadLines, ValidEol;
    HeldBy(s, text, target, eol);
    ReadBack(text, [], eol);
  }

  lemma KeptInRun(s: State, polls: seq<Observation>, text: string, target: string, eol: string)
    requires ValidEol(eol) && NoStrayCR(text) && ProperPolls(polls, target)
    requires s == State(Some(Applied(text, [], eol)), "", false, {}, false)
    ensures Kept(Run(s, polls, target, eol).Text()) == Kept(text)
  {
    var r := Run(s, polls, target, eol);
    assert Consistent(s, Some(text), target, eol) && Settled(s, Some(text), target, eol);
    hide Run, Step, Applied, Kept, ValidEol, NoStrayCR, ProperPolls, RereadLines, WantedEntries, ValidEntries;
    ControllerAgreesWithFile(s, polls, Some(text), target, eol);
    ReadBack(text, WantedEntries(r, target), eol);
    RereadIsIdentity(text, eol);
  }

  lemma WantedLines(s: State, target: string)
    ensures EntryLines(WantedEntries(s, target)) == if s.overridden then [s.lastIP + "\t" + target] else []
  {
  }

  // ----- When an override is set, kept and reverted -----

  /** The address is announced, is not what the name resolves to, passes the check, and the file can be changed. */
  predicate Sets(o: Observation) {
    o.ip != "" && o.ip != o.resolved && o.safe && o.readable && o.writable
  }

  /** The address is still announced and passes the check, or the file cannot be changed. */
  predicate Keeps(o: Observation, ip: string) {
    (o.ip == ip && o.safe) || !o.readable || !o.writable
  }

  /**
   Without an override a cycle sets one exactly for such an address, and otherwise
   changes nothing; the file then maps the target to the address, and the address
   is pinned if the pin succeeded.
   */
  lemma OverrideIsSet(s: State, o: Observation, target: string, eol: string)
    requires ValidEol(eol) && ProperPoll(o, target) && !s.overridden
    ensures var r := Step(s, o, target, eol);
      && (r.overridden <==> Sets(o))
      && (!Sets(o) ==> r == s)
      && (Sets(o) ==>
          && r.lastIP == o.ip && r.signalled
          && Managed(ScanLines(r.Text())) == [o.ip + "\t" + target]
          && Kept(r.Text()) == RereadLines(Kept(s.Text()), eol)
          && r.pinned == s.pinned + if o.pinOk then {o.ip} else {})
  {
    var entries := [Entry(o.ip, target)];
    StepWithout(s, o, target, eol);
    LineOfOverride(o, target);
    hide Applied, Managed, ScanLines, Kept, RereadLines, EntryLines, ValidEol, ValidEntries, Step;
    if Sets(o) {
      ReadBack(s.Text(), entries, eol);
    }
  }

  lemma LineOfOverride(o: Observation, target: string)
    requires ProperPoll(o, target)
    ensures EntryLines([Entry(o.ip, target)]) == [o.ip + "\t" + target]
    ensures o.safe ==> ValidEntries([Entry(o.ip, target)])
  {
    hide ValidEntry;
  }

  lemma StepWithout(s: State, o: Observation, target: string, eol: string)
    requires !s.overridden
    ensures var r := Step(s, o, target, eol);
      && (!Sets(o) ==> r == s)
      && (Sets(o) ==> r.overridden && r.lastIP == o.ip && r.signalled
                      && r.Text() == Applied(s.Text(), [Entry(o.ip, target)], eol)
                      && r.pinned == s.pinned + if o.pinOk then {o.ip} else {})
  {
    hide Applied;
  }

  /**
   With an override a cycle keeps it, and everything else, exactly while the same
   address is announced and passes the check, or the file cannot be changed;
   otherwise no marker is left in the file and the address is forgotten.
   */
  lemma OverrideIsReverted(s: State, o: Observation, target: string, eol: string)
    requires ValidEol(eol) && s.overridden && s.lastIP != ""
    ensures var r := Step(s, o, target, eol);
      && (r.overridden <==> Keeps(o, s.lastIP))
      && (Keeps(o, s.lastIP) ==> r == s)
      && (!Keeps(o, s.lastIP) ==>
          && r.lastIP == "" && r.signalled
          && (forall l :: l in ScanLines(r.Text()) ==> !IsMarker(l))
          && Kept(r.Text()) == RereadLines(Kept(s.Text()), eol)
          && r.pinned == s.pinned - if o.unpinOk then {s.lastIP} else {})
  {
    var r := Step(s, o, target, eol);
    assert !Keeps(o, s.lastIP) ==> r.Text() == Applied(s.Text(), [], eol);
    hide Applied, ScanLines, Kept, RereadLines, IsMarker, ValidEol;
    if !Keeps(o, s.lastIP) {
      NoMarkersLeft(s.Text(), eol);
      ReadBack(s.Text(), [], eol);
    }
  }

  /** Cycle k of the run sets the override that the run ends with. */
  ghost predicate SetsLast(s: State, polls: seq<Observation>, k: nat, target: string, eol: string) {
    && k < |polls| && !Run(s, polls[..k], target, eol).overridden && Sets(polls[k])
    && forall j :: k < j < |polls| ==> Keeps(polls[j], polls[k].ip)
  }

  /**
   A run ends overridden exactly if some cycle set an override and every later one
   keeps it, and then to the address of that cycle.
   */
  lemma {:induction false} OverriddenExactlySince(s: State, polls: seq<Observation>, target: string, eol: string)
    requires ValidEol(eol) && ProperPolls(polls, target) && !s.overridden && s.lastIP == ""
    ensures var r := Run(s, polls, target, eol);
      && (r.overridden <==> r.lastIP != "")
      && (r.overridden <==> exists k: nat :: SetsLast(s, polls, k, target, eol))
      && (forall k: nat :: SetsLast(s, polls, k, target, eol) ==> r.lastIP == polls[k].ip)
  {
    hide Step, ValidEol, Sets, Keeps, ProperPoll;
    if polls != [] {
      var (n, front, o) := (|polls| - 1, polls[..|polls| - 1], polls[|polls| - 1]);
      OverriddenExactlySince(s, front, target, eol);
      var before := Run(s, front, target, eol);
      assert forall k :: 0 <= k <= n ==> front[..k] == polls[..k];
      if before.overridden {
        OverrideIsReverted(before, o, target, eol);
        KeptSince(s, polls, before.lastIP, target, eol);
      } else {
        OverrideIsSet(before, o, target, eol);
        SetNow(s, polls, target, eol);
        SetsAddress(o);
      }
    }
  }

  lemma SetsAddress(o: Observation)
    ensures Sets(o) ==> o.ip != ""
  {
  }

  /** While overridden, the cycles that set the override are those that did before, if the last one keeps it. */
  lemma KeptSince(s: State, polls: seq<Observation>, ip: string, target: string, eol: string)
    requires polls != [] && var front := polls[..|polls| - 1];
      && Run(s, front, target, eol).overridden
      && (exists k: nat :: SetsLast(s, front, k, target, eol))
      && (forall k: nat :: SetsLast(s, front, k, target, eol) ==> ip == front[k].ip)
    ensures (exists k: nat :: SetsLast(s, polls, k, target, eol)) <==> Keeps(polls[|polls| - 1], ip)
    ensures forall k: nat :: SetsLast(s, polls, k, target, eol) ==> ip == polls[k].ip
  {
    hide Run, Sets, Keeps;
    var (n, front) := (|polls| - 1, polls[..|polls| - 1]);
    assert forall k :: 0 <= k <= n ==> front[..k] == polls[..k];
    forall k: nat | SetsLast(s, polls, k, target, eol)
      ensures SetsLast(s, front, k, target, eol)
    {
      assert k < n;
    }
    var k: nat :| SetsLast(s, front, k, target, eol);
    if Keeps(polls[n], ip) {
      assert SetsLast(s, polls, k, target, eol);
    }
  }

  /** Without an override before the last cycle, only that cycle can be the one that set it. */
  lemma SetNow(s: State, polls: seq<Observation>, target: string, eol: string)
    requires polls != [] && var front := polls[..|polls| - 1];
      !Run(s, front, target, eol).overridden && !(exists k: nat :: SetsLast(s, front, k, target, eol))
    ensures (exists k: nat :: SetsLast(s, polls, k, target, eol)) <==> Sets(polls[|polls| - 1])
    ensures forall k: nat :: SetsLast(s, polls, k, target, eol) ==> k == |polls| - 1
  {
    hide Run, Sets, Keeps;
    var (n, front) := (|polls| - 1, polls[..|polls| - 1]);
    assert forall k :: 0 <= k <= n ==> front[..k] == polls[..k];
    forall k: nat | SetsLast(s, polls, k, target, eol)
      ensures k == n
    {
      assert k < n ==> SetsLast(s, front, k, target, eol);
    }
    if Sets(polls[n]) {
      assert SetsLast(s, polls, n, target, eol);
    }
  }

  /** A cycle ends overridden only when its own check passed for that address, or a revert failed. */
  lemma OverriddenOnlyWhenChecked(s: State, o: Observation, target: string, eol: string)
    requires s.overridden <==> s.lastIP != ""
    ensures var r := Step(s, o, target, eol);
      r.overridden ==> (o.safe && o.ip == r.lastIP) || (s.overridden && r == s && !o.FileOk())
  {
  }

  /** A lost announcement, address or certificate restores normal resolution as soon as the file can be written. */
  lemma LostOverrideIsReverted(s: State, o: Observation, target: string, eol: string)
    requires o.FileOk() && (o.ip != s.lastIP || !o.safe) && (s.overridden <==> s.lastIP != "") && s.overridden
    ensures var r := Step(s, o, target, eol);
      !r.overridden && r.content == Some(Applied(s.Text(), [], eol)) && (o.unpinOk ==> s.lastIP !in r.pinned)
  {
    hide Applied;
  }

  /** No cycle moves an override from one address to another. */
  lemma AddressNeverMovesInOneCycle(s: State, o: Observation, target: string, eol: string)
    ensures var r := Step(s, o, target, eol);
      s.overridden && r.overridden ==> r.lastIP == s.lastIP && r.content == s.content
  {
    hide Applied;
  }

  /** Between two different addresses lies a cycle that ended without an override. */
  lemma {:induction false} CleanStateBetweenAddresses(s: State, polls: seq<Observation>, i: nat, j: nat,
                                                     target: string, eol: string) returns (k: nat)
    requires i < j <= |polls|
    requires Run(s, polls[..i], target, eol).overridden && Run(s, polls[..j], target, eol).overridden
    requires Run(s, polls[..i], target, eol).lastIP != Run(s, polls[..j], target, eol).lastIP
    ensures i < k < j && !Run(s, polls[..k], target, eol).overridden
    decreases j - i
  {
    hide Step, Applied;
    assert polls[..j][..j - 1] == polls[..j - 1];
    AddressNeverMovesInOneCycle(Run(s, polls[..j - 1], target, eol), polls[j - 1], target, eol);
    if !Run(s, polls[..j - 1], target, eol).overridden {
      k := j - 1;
    } else {
      k := CleanStateBetweenAddresses(s, polls, i, j - 1, target, eol);
    }
  }

  /** Every change of resolution leaves a notification for the connection loop. */
  lemma ChangesAreSignalled(s: State, o: Observation, target: string, eol: string)
    ensures var r := Step(s, o, target, eol);
      (r.overridden != s.overridden || r.content != s.content) ==> r.signalled
  {
    hide Applied;
  }
}
