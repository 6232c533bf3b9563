/** Every interleaving of the connection goroutines and the message handler of ldap_tunnel.go. */
module LdapInterleaving {
  import opened Results
  import opened Base64
  import opened LdapTunnel

  /** Where the goroutine of one connection stands. */
  datatype Phase = Reading | MustClose | MustUnregister | MustShut | Done

  /**
   One connection: what its client has written and how much was read and sent of
   it; whether its socket is open; the bytes the handler found it registered
   for, and those its socket took.
   */
  datatype Conn = Conn(written: seq<Byte>, taken: nat, sent: nat, phase: Phase, open: bool,
                       handed: seq<Byte>, delivered: seq<Byte>)

  /** What the message handler still has to do with the socket it looked up. */
  datatype Pending = Nothing | WriteTo(id: string, data: seq<Byte>) | Shut(id: string)

  datatype State = State(conns: map<string, Conn>, registered: set<string>, frames: seq<Frame>, pending: Pending)

  datatype Event =
    | Accept(id: string)
    | ClientWrites(id: string, data: seq<Byte>)
    | ReadSend(id: string, n: nat, sendOk: bool, last: bool)   // n bytes, and whether the read also failed
    | ReadFails(id: string)
    | SendClose(id: string, sendOk: bool)
    | Unregister(id: string)
    | ShutSocket(id: string)
    | DownData(id: string, text: string)                       // handler: decode and look up
    | DownWrite(id: string)                                    // handler: write to the socket found
    | DownClose(id: string)                                    // handler: look up and delete
    | DownShut(id: string)                                     // handler: close the socket found

  predicate Enabled(s: State, e: Event) {
    match e
    case Accept(id) => id !in s.conns && id != ""
    case ClientWrites(id, _) => id in s.conns
    case ReadSend(id, n, _, _) =>
      id in s.conns && s.conns[id].phase == Reading && s.conns[id].open
      && 0 < n <= BUFFER_SIZE && s.conns[id].taken + n <= |s.conns[id].written|
    case ReadFails(id) => id in s.conns && s.conns[id].phase == Reading
    case SendClose(id, _) => id in s.conns && s.conns[id].phase == MustClose
    case Unregister(id) => id in s.conns && s.conns[id].phase == MustUnregister
    case ShutSocket(id) => id in s.conns && s.conns[id].phase == MustShut
    case DownData(_, _) => s.pending.Nothing?
    case DownWrite(id) => s.pending.WriteTo? && s.pending.id == id && id in s.conns
    case DownClose(_) => s.pending.Nothing?
    case DownShut(id) => s.pending.Shut? && s.pending.id == id && id in s.conns
  }

  function Update(s: State, id: string, c: Conn): State {
    s.(conns := s.conns[id := c])
  }

  function Step(s: State, e: Event): State
    requires Enabled(s, e)
  {
    match e
    case Accept(id) =>
      Update(s, id, Conn([], 0, 0, Reading, true, [], [])).(registered := s.registered + {id})
    case ClientWrites(id, data) => Update(s, id, s.conns[id].(written := s.conns[id].written + data))
    case ReadSend(id, n, sendOk, last) =>
      var c := s.conns[id];
      var chunk := c.written[c.taken..c.taken + n];
      if sendOk then
        Update(s, id, c.(taken := c.taken + n, sent := c.sent + n, phase := if last then MustClose else Reading))
          .(frames := s.frames + [Data(id, Encode(chunk))])
      else Update(s, id, c.(taken := c.taken + n, phase := MustClose))
    case ReadFails(id) => Update(s, id, s.conns[id].(phase := MustClose))
    case SendClose(id, sendOk) =>
      Update(s, id, s.conns[id].(phase := MustUnregister))
        .(frames := if sendOk then s.frames + [Close(id)] else s.frames)
    case Unregister(id) => Update(s, id, s.conns[id].(phase := MustShut)).(registered := s.registered - {id})
    case ShutSocket(id) => Update(s, id, s.conns[id].(phase := Done, open := false))
    case DownData(id, text) =>
      var data := Decode(text);
      if id == "" || text == "" || data.None? || id !in s.registered || id !in s.conns then s
      else
        Update(s, id, s.conns[id].(handed := s.conns[id].handed + data.value)).(pending := WriteTo(id, data.value))
    case DownWrite(id) =>
      var c := s.conns[id];
      Update(s, id, if c.open then c.(delivered := c.delivered + s.pending.data) else c).(pending := Nothing)
    case DownClose(id) =>
      if id == "" then s
      else
        s.(registered := s.registered - {id}, pending := if id in s.registered then Shut(id) else Nothing)
    case DownShut(id) => Update(s, id, s.conns[id].(open := false)).(pending := Nothing)
  }

  // ----- The invariant -----

  /** The bytes the handler is about to write to the connection. */
  function InHand(s: State, id: string): seq<Byte> {
    if s.pending.WriteTo? && s.pending.id == id then s.pending.data else []
  }

  /** The frames sent for the connection carry a prefix of what its client wrote, then at most one close. */
  predicate UpstreamFits(frames: seq<Frame>, id: string, c: Conn) {
    var up := Upstream(frames, id);
    && up.proper
    && c.sent <= c.taken <= |c.written| && up.bytes == c.written[..c.sent]
    && (up.closed ==> !c.phase.Reading? && !c.phase.MustClose?)
    && (c.phase.Reading? ==> c.sent == c.taken)
  }

  /** The socket has taken, in order, what was handed to it, short only of what came after it closed. */
  predicate DownstreamFits(s: State, id: string, c: Conn) {
    && (c.open ==> c.delivered + InHand(s, id) == c.handed)
    && c.delivered <= c.handed
  }

  predicate Inv(s: State) {
    && s.registered <= s.conns.Keys
    && (!s.pending.Nothing? ==> s.pending.id in s.conns)
    && (forall id :: id in s.conns ==> UpstreamFits(s.frames, id, s.conns[id]) && DownstreamFits(s, id, s.conns[id]))
    && (forall f :: f in s.frames ==> f.id in s.conns)
    && (forall id :: id in s.conns && s.conns[id].phase.Done? ==> !s.conns[id].open)
  }

  lemma {:induction false} UnknownIsSilent(frames: seq<Frame>, id: string)
    requires forall f :: f in frames ==> f.id != id
    ensures Upstream(frames, id) == Stream([], false, true)
  {
    if frames != [] {
      UnknownIsSilent(frames[..|frames| - 1], id);
    }
  }

  lemma PrefixGrows<T>(s: seq<T>, i: nat, n: nat)
    requires i + n <= |s|
    ensures s[..i] + s[i..i + n] == s[..i + n]
  {
  }

  /** Each kind of step fits the connection it is about. */
  lemma DataFrameFits(frames: seq<Frame>, id: string, c: Conn, n: nat, last: bool)
    requires UpstreamFits(frames, id, c) && c.phase.Reading? && c.taken + n <= |c.written|
    ensures UpstreamFits(frames + [Data(id, Encode(c.written[c.taken..c.taken + n]))], id,
                         c.(taken := c.taken + n, sent := c.sent + n, phase := if last then MustClose else Reading))
  {
    var chunk := c.written[c.taken..c.taken + n];
    UpstreamData(frames, id, chunk);
    PrefixGrows(c.written, c.sent, n);
    hide Encode, Decode, Upstream;
  }

  lemma CloseFrameFits(frames: seq<Frame>, id: string, c: Conn)
    requires UpstreamFits(frames, id, c) && c.phase.MustClose?
    ensures UpstreamFits(frames + [Close(id)], id, c.(phase := MustUnregister))
  {
    UpstreamAppend(frames, Close(id), id);
  }

  lemma OtherFrameFits(frames: seq<Frame>, f: Frame, id: string, c: Conn)
    requires f.id != id
    ensures UpstreamFits(frames + [f], id, c) == UpstreamFits(frames, id, c)
    ensures Upstream(frames + [f], id) == Upstream(frames, id)
  {
    UpstreamAppend(frames, f, id);
  }

  /** A step about another connection adds at most a frame of that one. */
  lemma OtherStep(s: State, e: Event, id: string)
    requires Enabled(s, e) && e.id != id && id in s.conns && UpstreamFits(s.frames, id, s.conns[id])
    ensures id in Step(s, e).conns && UpstreamFits(Step(s, e).frames, id, Step(s, e).conns[id])
  {
    hide Encode, Decode, UpstreamFits;
    var t := Step(s, e);
    assert t.conns[id] == s.conns[id];
    if t.frames != s.frames {
      var f := t.frames[|s.frames|];
      assert t.frames == s.frames + [f] && f.id == e.id;
      OtherFrameFits(s.frames, f, id, s.conns[id]);
    }
  }

  lemma OwnStep(s: State, e: Event, id: string)
    requires Enabled(s, e) && e.id == id && id in s.conns && UpstreamFits(s.frames, id, s.conns[id])
    ensures id in Step(s, e).conns && UpstreamFits(Step(s, e).frames, id, Step(s, e).conns[id])
  {
    hide Encode, Decode, Upstream;
    var c := s.conns[id];
    if e.ReadSend? && e.sendOk {
      DataFrameFits(s.frames, id, c, e.n, e.last);
    } else if e.SendClose? && e.sendOk {
      CloseFrameFits(s.frames, id, c);
    } else if e.ClientWrites? {
      assert (c.written + e.data)[..c.sent] == c.written[..c.sent];
    }
  }

  lemma NewStep(s: State, e: Event, id: string)
    requires Inv(s) && Enabled(s, e) && id !in s.conns && id in Step(s, e).conns
    ensures UpstreamFits(Step(s, e).frames, id, Step(s, e).conns[id])
  {
    UnknownIsSilent(s.frames, id);
    hide Encode, Decode, Upstream, DownstreamFits;
  }

  lemma UpstreamStep(s: State, e: Event, id: string)
    requires Inv(s) && Enabled(s, e) && id in Step(s, e).conns
    ensures UpstreamFits(Step(s, e).frames, id, Step(s, e).conns[id])
  {
    hide Step, Enabled, UpstreamFits, DownstreamFits;
    if id !in s.conns {
      NewStep(s, e, id);
    } else if e.id == id {
      OwnStep(s, e, id);
    } else {
      OtherStep(s, e, id);
    }
  }

  lemma OtherDownstream(s: State, e: Event, id: string)
    requires Enabled(s, e) && e.id != id && id in s.conns && DownstreamFits(s, id, s.conns[id])
    ensures id in Step(s, e).conns && DownstreamFits(Step(s, e), id, Step(s, e).conns[id])
  {
    hide Encode, Decode;
  }

  lemma OwnDownstream(s: State, e: Event, id: string)
    requires Enabled(s, e) && e.id == id && id in s.conns && DownstreamFits(s, id, s.conns[id])
    ensures id in Step(s, e).conns && DownstreamFits(Step(s, e), id, Step(s, e).conns[id])
  {
    hide Encode, Decode;
    var c := s.conns[id];
    if e.DownData? {
      assert c.delivered + [] == c.delivered;
    } else if e.DownWrite? && c.open {
      assert c.delivered + s.pending.data + [] == c.handed;
    }
  }

  lemma DownstreamStep(s: State, e: Event, id: string)
    requires Inv(s) && Enabled(s, e) && id in Step(s, e).conns
    ensures DownstreamFits(Step(s, e), id, Step(s, e).conns[id])
  {
    hide Encode, Decode, UpstreamFits;
    if id in s.conns {
      assert DownstreamFits(s, id, s.conns[id]);
      hide DownstreamFits, Step, Enabled;
      if e.id == id {
        OwnDownstream(s, e, id);
      } else {
        OtherDownstream(s, e, id);
      }
    }
  }

  lemma BookkeepingStep(s: State, e: Event)
    requires Inv(s) && Enabled(s, e)
    ensures var t := Step(s, e);
      && t.registered <= t.conns.Keys && s.conns.Keys <= t.conns.Keys
      && (!t.pending.Nothing? ==> t.pending.id in t.conns)
      && (forall f :: f in t.frames ==> f.id in t.conns)
      && forall id :: id in t.conns && t.conns[id].phase.Done? ==> !t.conns[id].open
  {
    hide Encode, Decode, UpstreamFits, DownstreamFits;
    var t := Step(s, e);
    assert forall f :: f in t.frames ==> f in s.frames || f.id in t.conns;
  }

  lemma StepKeepsInv(s: State, e: Event)
    requires Inv(s) && Enabled(s, e)
    ensures Inv(Step(s, e))
  {
    var t := Step(s, e);
    BookkeepingStep(s, e);
    forall id | id in t.conns
      ensures UpstreamFits(t.frames, id, t.conns[id]) && DownstreamFits(t, id, t.conns[id])
    {
      UpstreamStep(s, e, id);
      DownstreamStep(s, e, id);
    }
    hide Step, Enabled, UpstreamFits, DownstreamFits;
  }

  // ----- Every run -----

  predicate AllEnabled(s: State, events: seq<Event>)
    decreases |events|
  {
    events == [] || (Enabled(s, events[0]) && AllEnabled(Step(s, events[0]), events[1..]))
  }

  function Run(s: State, events: seq<Event>): State
    requires AllEnabled(s, events)
    decreases |events|
  {
    if events == [] then s else Run(Step(s, events[0]), events[1..])
  }

  const START := State(map[], {}, [], Nothing)

  lemma {:induction false} RunsKeepInv(s: State, events: seq<Event>)
    requires Inv(s) && AllEnabled(s, events)
    ensures Inv(Run(s, events))
    decreases |events|
  {
    hide Inv, Step, Enabled;
    if events != [] {
      StepKeepsInv(s, events[0]);
      RunsKeepInv(Step(s, events[0]), events[1..]);
    }
  }

  // ----- The messages of a run -----

  /** Whether the connection is in the registry after an event. */
  function OpenAfter(open: bool, e: Event, id: string): bool {
    if e.id != id then open
    else
      match e
      case Accept(_) => true
      case Unregister(_) => false
      case DownClose(_) => open && id == ""
      case _ => open
  }

  /** The bytes of the messages for the connection that come while it is in the registry. */
  function SentDown(open: bool, events: seq<Event>, id: string): seq<Byte>
    decreases |events|
  {
    if events == [] then []
    else MessageBytes(open, events[0], id) + SentDown(OpenAfter(open, events[0], id), events[1..], id)
  }

  function MessageBytes(open: bool, e: Event, id: string): seq<Byte> {
    if open && id != "" && e.DownData? && e.id == id && Decode(e.text).Some? then Decode(e.text).value else []
  }

  function HandedTo(s: State, id: string): seq<Byte> {
    if id in s.conns then s.conns[id].handed else []
  }

  lemma HandedStep(s: State, e: Event, id: string)
    requires Inv(s) && Enabled(s, e)
    ensures var t := Step(s, e);
      && HandedTo(t, id) == HandedTo(s, id) + MessageBytes(id in s.registered, e, id)
      && (id in t.registered <==> OpenAfter(id in s.registered, e, id))
  {
    EmptyTextIsNoData();
    hide Encode, Decode, Upstream, UpstreamFits, DownstreamFits;
  }

  lemma {:induction false} HandedIsSent(s: State, events: seq<Event>, id: string)
    requires Inv(s) && AllEnabled(s, events)
    ensures HandedTo(Run(s, events), id) == HandedTo(s, id) + SentDown(id in s.registered, events, id)
    decreases |events|
  {
    hide Inv, Step, Enabled, HandedTo, MessageBytes, OpenAfter;
    if events != [] {
      StepKeepsInv(s, events[0]);
      HandedStep(s, events[0], id);
      HandedIsSent(Step(s, events[0]), events[1..], id);
    }
  }

  /**
   In every interleaving the frames of a connection are data and then at most
   one close, they decode to a prefix of what its client wrote, and its socket
   has taken a prefix of what the messages sent down for it while it was registered.
   */
  lemma Demultiplexing(events: seq<Event>, id: string)
    requires AllEnabled(START, events) && id in Run(START, events).conns
    ensures var s := Run(START, events);
      var up := Upstream(s.frames, id);
      && up.proper && up.bytes <= s.conns[id].written
      && s.conns[id].delivered <= SentDown(false, events, id)
      && (up.closed ==> !s.conns[id].phase.Reading?)
  {
    assert Inv(START);
    HandedIsSent(START, events, id);
    RunsKeepInv(START, events);
    hide Run, AllEnabled, Upstream;
  }

  // ----- Nothing is lost -----

  /** The bytes that the events of a run read from the connection and sent. */
  function BytesSent(events: seq<Event>, id: string): nat
    decreases |events|
  {
    if events == [] then 0
    else
      var e := events[0];
      (if e.ReadSend? && e.id == id && e.sendOk then e.n else 0) + BytesSent(events[1..], id)
  }

  function SentOf(s: State, id: string): nat {
    if id in s.conns then s.conns[id].sent else 0
  }

  predicate Shuttered(s: State, id: string) {
    id in s.conns && !s.conns[id].open
  }

  /** What a step adds to what a connection has sent, and whether it shuts its socket. */
  lemma ConnStep(s: State, e: Event, id: string)
    requires Enabled(s, e)
    ensures var t := Step(s, e);
      && (id in t.conns <==> id in s.conns || e == Accept(id))
      && SentOf(t, id) == SentOf(s, id) + (if e.ReadSend? && e.id == id && e.sendOk then e.n else 0)
      && (Shuttered(t, id) <==> Shuttered(s, id) || e == ShutSocket(id) || e == DownShut(id))
  {
    hide Encode, Decode;
  }

  /** A step tells of the end of a connection only by sending its close. */
  lemma CloseStep(s: State, e: Event, id: string)
    requires Enabled(s, e)
    ensures Upstream(Step(s, e).frames, id).closed <==> Upstream(s.frames, id).closed || e == SendClose(id, true)
  {
    var t := Step(s, e);
    hide Encode, Decode, Upstream;
    if e.ReadSend? && e.sendOk {
      var f := Data(e.id, Encode(s.conns[e.id].written[s.conns[e.id].taken..s.conns[e.id].taken + e.n]));
      assert t.frames == s.frames + [f];
      UpstreamAppend(s.frames, f, id);
      ClosedAfter(Upstream(s.frames, id), f, id);
    } else if e.SendClose? && e.sendOk {
      assert t.frames == s.frames + [Close(e.id)];
      UpstreamAppend(s.frames, Close(e.id), id);
      ClosedAfter(Upstream(s.frames, id), Close(e.id), id);
    }
  }

  lemma ClosedAfter(up: Stream, f: Frame, id: string)
    ensures up.AfterFrame(f, id).closed <==> up.closed || f == Close(id)
  {
    hide Decode;
  }

  lemma {:induction false} AccountOfRun(s: State, events: seq<Event>, id: string)
    requires AllEnabled(s, events)
    ensures var r := Run(s, events);
      && (id in r.conns <==> id in s.conns || Accept(id) in events)
      && SentOf(r, id) == SentOf(s, id) + BytesSent(events, id)
      && (Shuttered(r, id) <==> Shuttered(s, id) || ShutSocket(id) in events || DownShut(id) in events)
      && (Upstream(r.frames, id).closed <==> Upstream(s.frames, id).closed || SendClose(id, true) in events)
    decreases |events|
  {
    hide Step, Enabled, Upstream, SentOf, Shuttered;
    if events != [] {
      ConnStep(s, events[0], id);
      CloseStep(s, events[0], id);
      AccountOfRun(Step(s, events[0]), events[1..], id);
      assert forall e :: e in events <==> e == events[0] || e in events[1..];
    }
  }

  /**
   And nothing is lost on the way: the frames carry exactly the bytes that were read
   and sent, the close is there exactly if it was sent, and until the socket is shut
   it takes all that the messages sent down, but for what the handler has in hand.
   */
  lemma NothingIsLost(events: seq<Event>, id: string)
    requires AllEnabled(START, events)
    ensures var s := Run(START, events);
      var up := Upstream(s.frames, id);
      && (id in s.conns <==> Accept(id) in events)
      && (up.closed <==> SendClose(id, true) in events)
      && (id in s.conns ==>
          && BytesSent(events, id) <= |s.conns[id].written|
          && up.bytes == s.conns[id].written[..BytesSent(events, id)]
          && (ShutSocket(id) !in events && DownShut(id) !in events ==>
              s.conns[id].delivered + InHand(s, id) == SentDown(false, events, id)))
  {
    assert Inv(START);
    NoFrames(id);
    AccountOfRun(START, events, id);
    HandedIsSent(START, events, id);
    RunsKeepInv(START, events);
    hide Run, AllEnabled, Upstream, SentDown, BytesSent;
    var s := Run(START, events);
    if id in s.conns {
      assert UpstreamFits(s.frames, id, s.conns[id]) && DownstreamFits(s, id, s.conns[id]);
      assert s.conns[id].sent == BytesSent(events, id);
    }
  }

  lemma NoFrames(id: string)
    ensures Upstream([], id) == Stream([], false, true)
  {
  }

  /** Wherever a goroutine stands it can go on; each of its last steps leads to the next. */
  lemma GoesOn(s: State, id: string)
    requires id in s.conns
    ensures s.conns[id].phase.Reading? ==>
      Enabled(s, ReadFails(id)) && Step(s, ReadFails(id)).conns[id].phase.MustClose?
    ensures s.conns[id].phase.Reading? && s.conns[id].open && s.conns[id].taken < |s.conns[id].written| ==>
      Enabled(s, ReadSend(id, 1, true, false)) && Step(s, ReadSend(id, 1, true, false)).conns[id].phase.Reading?
      && Enabled(s, ReadSend(id, 1, true, true)) && Step(s, ReadSend(id, 1, true, true)).conns[id].phase.MustClose?
    ensures s.conns[id].phase.MustClose? ==>
      Enabled(s, SendClose(id, true)) && Step(s, SendClose(id, true)).conns[id].phase.MustUnregister?
      && Step(s, SendClose(id, true)).frames == s.frames + [Close(id)]
    ensures s.conns[id].phase.MustUnregister? ==>
      Enabled(s, Unregister(id)) && Step(s, Unregister(id)).conns[id].phase.MustShut?
      && id !in Step(s, Unregister(id)).registered
    ensures s.conns[id].phase.MustShut? ==>
      Enabled(s, ShutSocket(id)) && Step(s, ShutSocket(id)).conns[id].phase.Done?
      && !Step(s, ShutSocket(id)).conns[id].open
  {
    hide Encode, Decode;
  }

  /** The handler can always go on with what it has in hand, and a new id can always be accepted. */
  lemma HandlerGoesOn(s: State, id: string)
    requires Inv(s)
    ensures s.pending.WriteTo? && s.pending.id == id ==>
      Enabled(s, DownWrite(id)) && Step(s, DownWrite(id)).pending.Nothing?
    ensures s.pending.Shut? && s.pending.id == id ==>
      Enabled(s, DownShut(id)) && Step(s, DownShut(id)).pending.Nothing? && !Step(s, DownShut(id)).conns[id].open
    ensures id !in s.conns && id != "" ==>
      Enabled(s, Accept(id)) && id in Step(s, Accept(id)).registered && Step(s, Accept(id)).conns[id].open
  {
    hide Encode, Decode, UpstreamFits, DownstreamFits;
  }

  /** A step about one connection shows on no other. */
  lemma StepTouchesOneConnection(s: State, e: Event, id: string)
    requires Inv(s) && Enabled(s, e) && e.id != id && id in s.conns
    ensures var t := Step(s, e);
      t.conns[id] == s.conns[id] && Upstream(t.frames, id) == Upstream(s.frames, id)
      && (id in t.registered <==> id in s.registered)
  {
    hide Encode, Decode, Upstream, Inv;
    var t := Step(s, e);
    if t.frames != s.frames {
      OtherFrameFits(s.frames, t.frames[|s.frames|], id, s.conns[id]);
      assert t.frames == s.frames + [t.frames[|s.frames|]];
    }
  }

  /** Either side has closed: the socket is shut, or the connection is out of the registry with nothing in hand. */
  predicate Quiet(s: State, id: string) {
    id in s.conns && (!s.conns[id].open || (id !in s.registered && InHand(s, id) == []))
  }

  lemma QuietStep(s: State, e: Event, id: string)
    requires Quiet(s, id) && Enabled(s, e)
    ensures Quiet(Step(s, e), id) && Step(s, e).conns[id].delivered == s.conns[id].delivered
  {
    hide Encode, Decode;
    if e.DownWrite? && e.id == id && s.conns[id].open {
      assert s.pending.data == [];
    }
  }

  /** Once either side has closed, no run writes another byte to the socket. */
  lemma {:induction false} NothingAfterClose(s: State, events: seq<Event>, id: string)
    requires Quiet(s, id) && AllEnabled(s, events)
    ensures Quiet(Run(s, events), id) && Run(s, events).conns[id].delivered == s.conns[id].delivered
    decreases |events|
  {
    hide Step, Enabled, Quiet;
    if events != [] {
      QuietStep(s, events[0], id);
      NothingAfterClose(Step(s, events[0]), events[1..], id);
    }
  }

  /** Both ways of closing make the connection quiet. */
  lemma ClosingMakesQuiet(s: State, e: Event)
    requires Inv(s) && Enabled(s, e) && e.id in s.conns && e.id != ""
    requires e.DownClose? || e.ShutSocket? || e.DownShut? || (e.Unregister? && InHand(s, e.id) == [])
    ensures Quiet(Step(s, e), e.id)
  {
    hide Encode, Decode, Inv;
  }
}
