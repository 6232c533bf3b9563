/** Many local LDAP connections over one stream of frames: ldap_tunnel.go. */
module LdapTunnel {
  import opened Results
  import opened Base64

  const BUFFER_SIZE := 32 * 1024

  /** A frame of the WebSocket stream; safeWriter puts each on the wire whole. */
  datatype Frame = Data(id: string, text: string) | Close(id: string)

  // ----- One connection, running alone -----

  /** One return of conn.Read: the bytes it filled in, and whether it also failed. */
  datatype ReadResult = ReadResult(data: seq<Byte>, failed: bool)

  /** The bytes of the first n reads. */
  function BytesOf(results: seq<ReadResult>, n: nat): seq<Byte>
    requires n <= |results|
  {
    if n == 0 then [] else BytesOf(results, n - 1) + results[n - 1].data
  }

  /** What a stream of frames says of one connection. */
  datatype Stream = Stream(bytes: seq<Byte>, closed: bool, proper: bool) {
    /** Nothing may come after the close, and data must decode. */
    function AfterFrame(f: Frame, id: string): Stream {
      if f.id != id then this
      else
        match f
        case Close(_) => Stream(bytes, true, proper && !closed)
        case Data(_, text) =>
          var data := Decode(text);
          if data.Some? then Stream(bytes + data.value, closed, proper && !closed) else Stream(bytes, closed, false)
    }
  }

  function Upstream(frames: seq<Frame>, id: string): Stream {
    if frames == [] then Stream([], false, true)
    else Upstream(frames[..|frames| - 1], id).AfterFrame(frames[|frames| - 1], id)
  }

  lemma UpstreamAppend(frames: seq<Frame>, f: Frame, id: string)
    ensures Upstream(frames + [f], id) == Upstream(frames, id).AfterFrame(f, id)
  {
    assert (frames + [f])[..|frames|] == frames;
  }

  /** A frame for the bytes a read left in the buffer. */
  lemma UpstreamData(frames: seq<Frame>, id: string, data: seq<Byte>)
    ensures var before, after := Upstream(frames, id), Upstream(frames + [Data(id, Encode(data))], id);
      after == Stream(before.bytes + data, before.closed, before.proper && !before.closed)
  {
    UpstreamAppend(frames, Data(id, Encode(data)), id);
    DecodeOfEncoded(data);
  }

  /** conn.Read: the bytes at hand go to the front of the buffer. */
  method Fill(buf: array<Byte>, data: seq<Byte>) returns (n: nat)
    requires |data| <= buf.Length
    modifies buf
    ensures n == |data| && buf[..n] == data
  {
    n := |data|;
    forall k | 0 <= k < n {
      buf[k] := data[k];
    }
  }

  /** The frames sent for the connection are proper and carry the bytes of the first n reads. */
  ghost predicate Carries(frames: seq<Frame>, id: string, results: seq<ReadResult>, n: nat, closed: bool) {
    n <= |results| && Upstream(frames, id) == Stream(BytesOf(results, n), closed, true)
  }

  lemma NothingCarried(id: string, results: seq<ReadResult>)
    ensures Carries([], id, results, 0, false)
  {
  }

  lemma CarryRead(frames: seq<Frame>, id: string, results: seq<ReadResult>, n: nat)
    requires Carries(frames, id, results, n, false) && n < |results|
    ensures Carries(frames + [Data(id, Encode(results[n].data))], id, results, n + 1, false)
    ensures results[n].data == [] ==> Carries(frames, id, results, n + 1, false)
  {
    UpstreamData(frames, id, results[n].data);
    hide Encode, Decode, Upstream;
  }

  lemma CarryClose(frames: seq<Frame>, id: string, results: seq<ReadResult>, n: nat)
    requires Carries(frames, id, results, n, false)
    ensures Carries(frames + [Close(id)], id, results, n, true)
  {
    UpstreamAppend(frames, Close(id), id);
    hide Encode, Decode, Upstream;
  }

  /** The loop's reason to stop after n reads: a read that failed, or the next one's bytes that could not be sent. */
  predicate Stops(results: seq<ReadResult>, sends: seq<bool>, n: nat)
    requires |sends| == |results|
  {
    (0 < n <= |results| && results[n - 1].failed) || (n < |results| && results[n].data != [] && !sends[n])
  }

  /** Every read before the last succeeded, and every chunk was sent. */
  predicate Passes(results: seq<ReadResult>, sends: seq<bool>, n: nat)
    requires |sends| == |results| && n <= |results|
  {
    && (forall k :: 0 <= k < n ==> results[k].data == [] || sends[k])
    && (forall k :: 0 <= k < n - 1 ==> !results[k].failed)
  }

  /** Where the loop stops: behind the first read that failed, or at the first chunk that could not be sent. */
  lemma StopsAtFirst(results: seq<ReadResult>, sends: seq<bool>, n: nat, j: nat)
    requires |sends| == |results| && n <= |results|
    requires Passes(results, sends, n) && (n < |results| ==> Stops(results, sends, n))
    requires j <= |results| && forall k :: 0 <= k < j ==> !results[k].failed && (sends[k] || results[k].data == [])
    ensures j == |results| ==> n == j
    ensures j < |results| && !sends[j] && results[j].data != [] ==> n == j
    ensures j < |results| && results[j].failed && (sends[j] || results[j].data == []) ==> n == j + 1
  {
  }

  /**
   handleConn: reads into one reused buffer until a read or a send fails, then
   signals the end; sends[k] says whether the k-th data frame can be sent.
   */
  method PumpConn(id: string, results: seq<ReadResult>, sends: seq<bool>, closeSends: bool)
    returns (frames: seq<Frame>, n: nat)
    requires |sends| == |results| && forall k :: 0 <= k < |results| ==> |results[k].data| <= BUFFER_SIZE
    ensures Carries(frames, id, results, n, closeSends)
    ensures Passes(results, sends, n) && (n < |results| ==> Stops(results, sends, n))
  {
    hide Encode, Carries;
    var buf := new Byte[BUFFER_SIZE];
    frames := [];
    n := 0;
    NothingCarried(id, results);
    while n < |results|
      invariant n <= |results| && Carries(frames, id, results, n, false)
      invariant Passes(results, sends, n) && (n > 0 ==> !results[n - 1].failed)
      decreases |results| - n
    {
      var filled := Fill(buf, results[n].data);
      if filled > 0 && !sends[n] {
        break;
      }
      CarryRead(frames, id, results, n);
      if filled > 0 {
        frames := frames + [Data(id, Encode(buf[..filled]))];
      }
      n := n + 1;
      if results[n - 1].failed {
        break;
      }
    }
    if closeSends {
      CarryClose(frames, id, results, n);
      frames := frames + [Close(id)];
    }
  }

  // ----- The registry -----

  class Socket {
    var delivered: seq<Byte>
    var open: bool

    constructor ()
      ensures delivered == [] && open
    {
      delivered, open := [], true;
    }

    /** A write to a closed socket fails and delivers nothing. */
    method Write(data: seq<Byte>)
      modifies this
      ensures open == old(open) && delivered == if open then old(delivered) + data else old(delivered)
    {
      if open {
        delivered := delivered + data;
      }
    }

    method CloseSocket()
      modifies this
      ensures !open && delivered == old(delivered)
    {
      open := false;
    }
  }

  class Registry {
    var conns: map<string, Socket>

    constructor ()
      ensures conns == map[]
    {
      conns := map[];
    }

    method Register(id: string, conn: Socket)
      modifies this
      ensures conns == old(conns)[id := conn]
    {
      conns := conns[id := conn];
    }

    method Unregister(id: string, conn: Socket)
      modifies this, conn
      ensures conns == old(conns) - {id} && !conn.open && conn.delivered == old(conn.delivered)
    {
      conns := conns - {id};
      conn.CloseSocket();
    }

    /** Bytes for a registered connection reach its socket alone; a close takes it out of the registry. */
    method HandleMessage(id: string, close: bool, text: string)
      modifies this, if id in conns then {conns[id]} else {}
      ensures conns == if id != "" && close then old(conns) - {id} else old(conns)
      ensures id != "" && id in old(conns) ==>
        var conn := old(conns)[id];
        && conn.open == (if close then false else old(conn.open))
        && conn.delivered
           == (if !close && old(conn.open) && Decode(text).Some? then old(conn.delivered) + Decode(text).value
               else old(conn.delivered))
    {
      hide Decode;
      if id == "" {
        return;
      }
      if close {
        if id in conns {
          var conn := conns[id];
          conns := conns - {id};
          conn.CloseSocket();
        } else {
          conns := conns - {id};
        }
        return;
      }
      if text == "" {
        EmptyTextIsNoData();
        return;
      }
      var data := Decode(text);
      if data.None? {
        return;
      }
      if id in conns {
        conns[id].Write(data.value);
      }
    }
  }

  lemma EmptyTextIsNoData()
    ensures Decode("") == Some([])
  {
  }
}
