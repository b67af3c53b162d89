/** One connection: what its two byte streams look like at each point of an exchange. */
module RpcConnections {
  import opened Bytes
  import opened Results
  import opened Frames
  import opened RpcProtocol
  import ServerSession

  /** The protocol's server step takes what the server's own read loop takes off the stream: on a complete frame that is
      not empty the two agree on the payload and on what is left. */
  lemma ServeReadsAsTheServerDoes(s: seq<byte>)
    requires FirstPayload(s).Some? && FirstPayload(s).value != []
    ensures ServerSession.NextMessage(s) == ServerSession.Payload(FirstPayload(s).value,
            s[4 + |FirstPayload(s).value|..])
  {
  }

  function Requests(log: seq<Exchange>): (ps: seq<seq<byte>>)
    ensures |ps| == |log| && forall i | 0 <= i < |log| :: ps[i] == log[i].request
  {
    seq(|log|, i requires 0 <= i < |log| => log[i].request)
  }

  function RepliesOf(log: seq<Exchange>): (ps: seq<seq<byte>>)
    ensures |ps| == |log| && forall i | 0 <= i < |log| :: ps[i] == log[i].reply
  {
    seq(|log|, i requires 0 <= i < |log| => log[i].reply)
  }

  /** The server has read whole request frames and written one reply frame for each, in order. */
  ghost predicate ServedInOrder(c: Conn) {
    && Framable(Requests(c.log)) && Framable(RepliesOf(c.log))
    && c.serverRead <= |c.toServer| && c.toServer[..c.serverRead] == Stream(Requests(c.log))
    && c.fromServer == Stream(RepliesOf(c.log))
  }

  /** Both directions are at a frame boundary and no reply is outstanding. */
  ghost predicate AtRest(c: Conn) {
    ServedInOrder(c) && c.serverRead == |c.toServer| && c.clientRead == |c.fromServer|
  }

  /** The first `sent` bytes of a request frame are on their way. */
  ghost predicate MidSend(c: Conn, request: seq<byte>, base: nat, sent: nat) {
    && ServedInOrder(c) && |c.log| == base && c.clientRead == |c.fromServer|
    && IsPayload(request) && sent < |Frame(request)| && c.toServer[c.serverRead..] == Frame(request)[..sent]
  }

  /** The request is out and the server has not answered it. */
  ghost predicate Unanswered(c: Conn, request: seq<byte>, base: nat) {
    && ServedInOrder(c) && |c.log| == base && c.clientRead == |c.fromServer|
    && IsPayload(request) && c.toServer[c.serverRead..] == Frame(request)
  }

  /** The server has answered it, and `buffer` is the part of that reply frame the client has read. */
  ghost predicate MidReply(c: Conn, request: seq<byte>, base: nat, buffer: seq<byte>) {
    && ServedInOrder(c) && |c.log| == base + 1 && c.serverRead == |c.toServer|
    && c.log[base].request == request
    && var f := Frame(RepliesOf(c.log)[base]);
       |buffer| < |f| && buffer == f[..|buffer|] && c.clientRead + |f| == |c.fromServer| + |buffer|
  }

  /** The reply has been read to its end. */
  ghost predicate Done(c: Conn, request: seq<byte>, base: nat, reply: seq<byte>) {
    AtRest(c) && |c.log| == base + 1 && c.log[base] == Exchange(request, reply)
  }

  lemma FreshConnAtRest()
    ensures AtRest(Conn([], 0, [], 0, []))
  {
  }

  lemma StartSending(c: Conn, request: seq<byte>)
    requires AtRest(c) && IsPayload(request)
    ensures MidSend(c, request, |c.log|, 0)
  {
  }

  lemma SendMore(c: Conn, request: seq<byte>, base: nat, sent: nat, count: nat)
    requires MidSend(c, request, base, sent) && 0 < count <= |Frame(request)| - sent
    ensures var c' := c.(toServer := c.toServer + Frame(request)[sent..sent + count]);
            if sent + count == |Frame(request)| then Unanswered(c', request, base)
                else MidSend(c', request, base, sent + count)
  {
    var f := Frame(request);
    var c' := c.(toServer := c.toServer + f[sent..sent + count]);
    assert c'.toServer[..c.serverRead] == c.toServer[..c.serverRead];
    assert c'.toServer[c.serverRead..] == c.toServer[c.serverRead..] + f[sent..sent + count] == f[..sent + count];
    assert sent + count == |f| ==> f[..sent + count] == f;
  }

  /** No complete request is waiting at a connection at rest or in the middle of sending. */
  lemma NothingToServe(c: Conn, request: seq<byte>, base: nat, sent: nat)
    requires AtRest(c) || MidSend(c, request, base, sent)
    ensures FirstPayload(c.toServer[c.serverRead..]) == None
  {
    if c.serverRead < |c.toServer| && sent >= 4 {
      FramePrefixReads(request, sent);
    }
  }

  lemma FirstOfFrame(p: seq<byte>)
    requires |p| < TWO_TO_32
    ensures FirstPayload(Frame(p)) == Some(p)
  {
    FrameReads(p, []);
    assert Frame(p) + [] == Frame(p);
  }

  /** The server reads exactly the request that is out. */
  lemma ServeUnanswered(c: Conn, request: seq<byte>, base: nat, reply: seq<byte>)
    requires Unanswered(c, request, base) && |reply| < TWO_TO_32
    ensures FirstPayload(c.toServer[c.serverRead..]) == Some(request)
    ensures MidReply(ServeOne(c, reply), request, base, [])
  {
    FirstOfFrame(request);
    var c' := ServeOne(c, reply);
    assert Requests(c'.log) == Requests(c.log) + [request];
    assert RepliesOf(c'.log) == RepliesOf(c.log) + [reply];
    StreamAppend(Requests(c.log), request);
    StreamAppend(RepliesOf(c.log), reply);
    assert c'.serverRead == |c.toServer|;
    assert c.toServer == c.toServer[..c.serverRead] + c.toServer[c.serverRead..];
    assert c'.toServer[..c'.serverRead] == c.toServer;
  }

  /** The last reply frame sits at the end of what the server wrote. */
  lemma LastFrame(c: Conn, base: nat)
    requires ServedInOrder(c) && |c.log| == base + 1
    ensures var f := Frame(RepliesOf(c.log)[base]);
            |f| <= |c.fromServer| && c.fromServer[|c.fromServer| - |f|..] == f
  {
    var replies := RepliesOf(c.log);
    assert replies == replies[..base] + [replies[base]];
    StreamAppend(replies[..base], replies[base]);
  }

  /** What the next chunk of a reply frame adds to the part that has been read. */
  lemma NextChunk(c: Conn, request: seq<byte>, base: nat, buffer: seq<byte>, count: nat)
    requires MidReply(c, request, base, buffer) && c.clientRead + count <= |c.fromServer|
    ensures var f := Frame(RepliesOf(c.log)[base]);
            |buffer| + count <= |f| && buffer + c.fromServer[c.clientRead..c.clientRead + count]
                == f[..|buffer| + count]
  {
    var f := Frame(RepliesOf(c.log)[base]);
    LastFrame(c, base);
    var start := |c.fromServer| - |f|;
    assert c.clientRead == start + |buffer|;
    assert c.fromServer[start..][|buffer|..|buffer| + count] == c.fromServer[c.clientRead..c.clientRead + count];
  }

  /** How much of a frame is still wanted, and what a complete one holds. */
  lemma WantedOfFrame(p: seq<byte>, k: nat)
    requires |p| < TWO_TO_32 && k <= 4 + |p|
    ensures Wanted(Frame(p)[..k]) == if k < 4 then 4 - k else 4 + |p| - k
    ensures k == 4 + |p| ==> Frame(p)[..k][4..] == p
  {
    if k >= 4 {
      FramePrefixReads(p, k);
      assert p[..|p|] == p;
    }
  }

  /** Reading on: the client gets the next bytes of this very reply, and the whole of it when it stops asking. */
  lemma ReceiveMore(c: Conn, request: seq<byte>, base: nat, buffer: seq<byte>, count: nat)
    requires MidReply(c, request, base, buffer)
    requires 0 < count <= Wanted(buffer) && c.clientRead + count <= |c.fromServer|
    ensures var c' := c.(clientRead := c.clientRead + count);
            var buffer' := buffer + c.fromServer[c.clientRead..c.clientRead + count];
            if Wanted(buffer') > 0 then MidReply(c', request, base, buffer')
            else |buffer'| >= 4 && Done(c', request, base, buffer'[4..])
  {
    var reply := RepliesOf(c.log)[base];
    NextChunk(c, request, base, buffer, count);
    WantedOfFrame(reply, |buffer|);
    WantedOfFrame(reply, |buffer| + count);
    var buffer' := buffer + c.fromServer[c.clientRead..c.clientRead + count];
    assert |buffer'| == |buffer| + count;
  }

  /** Before the server answers there is nothing to read, so a thread that reads is reading its own reply. */
  lemma ReadsItsReply(c: Conn, request: seq<byte>, base: nat, buffer: seq<byte>, count: nat)
    requires (Unanswered(c, request, base) && buffer == []) || MidReply(c, request, base, buffer)
    requires count > 0 && c.clientRead + count <= |c.fromServer|
    ensures MidReply(c, request, base, buffer)
  {
  }
}
