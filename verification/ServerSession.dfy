/** One connection of the enclave's RPC server, from accept to close. */
module ServerSession {
  import opened Bytes
  import opened Results
  import opened Frames

  /** The dispatcher behind the connection loop: the payload of a request and the reply payload, in a state the
      requests share. `None` is a payload that is not a UTF-8 JSON object. */
  datatype Service<!S> = Service(answer: (S, seq<byte>) -> Option<(S, seq<byte>)>)

  /** The service takes this payload, and its reply fits a frame. */
  predicate Serves<S>(service: Service<S>, state: S, payload: seq<byte>) {
    var answer := service.answer(state, payload);
    answer.Some? && |answer.value.1| < TWO_TO_32
  }

  /** What `_read_message` makes of the bytes that are left. The payload of a frame cut short is whatever
      arrived of it. */
  datatype Message = EndOfStream | Payload(payload: seq<byte>, rest: seq<byte>) | Broken

  function NextMessage(s: seq<byte>): (m: Message)
    ensures m.Payload? ==> |m.rest| < |s|
  {
    if s == [] then EndOfStream
    else if |s| < 4 then Broken
    else
      var n := Announced(s);
      if n == 0 || |s| == 4 then Broken
      else if |s| >= 4 + n then Payload(s[4..4 + n], s[4 + n..])
      else Payload(s[4..], [])
  }

  /** The end of a session: the payloads answered, the replies written, the state left behind, and whether the
      loop ended at a clean end of stream or at a stop request rather than by an exception. */
  datatype Ending<S> = Ending(served: seq<seq<byte>>, replies: seq<seq<byte>>, state: S, clean: bool)

  /** `_handle_connection`, with `turns` the number of times the loop finds the stop event clear. */
  function Session<S>(s: seq<byte>, state: S, service: Service<S>, turns: nat): (e: Ending<S>)
    ensures |e.replies| == |e.served|
    ensures Framable(e.replies)
    decreases turns
  {
    if turns == 0 then Ending([], [], state, true)
    else
      match NextMessage(s)
      case EndOfStream => Ending([], [], state, true)
      case Broken => Ending([], [], state, false)
      case Payload(p, rest) =>
        match service.answer(state, p)
        case None => Ending([], [], state, false)
        case Some((state', reply)) =>
          if |reply| >= TWO_TO_32 then Ending([], [], state', false)
          else
            var e := Session(rest, state', service, turns - 1);
            Ending([p] + e.served, [reply] + e.replies, e.state, e.clean)
  }

  method ReadMessage(socket: Socket) returns (m: Message, io: Result<(), IoError>)
    modifies socket`incoming, socket`schedule
    ensures io.Success? ==> m == NextMessage(old(socket.incoming)) && (m.Payload? ==> socket.incoming == m.rest)
    ensures old(socket.Faultless()) ==> io.Success? && socket.Faultless()
  {
    ghost var s := old(socket.incoming);
    var header := ServerRecvExact(socket, 4);
    if header.Failure? { return Broken, Failure(header.error); }
    io := Success(());
    if header.value.None? { return EndOfStream, io; }
    if |header.value.value| < 4 { return Broken, io; }
    assert header.value.value[..4] == s[..4];
    var n := Announced(header.value.value);
    if n == 0 { return Broken, io; }
    var payload := ServerRecvExact(socket, n);
    if payload.Failure? { return Broken, Failure(payload.error); }
    if payload.value.None? { return Broken, io; }
    assert |s| >= 4 + n ==> s[4..][..n] == s[4..4 + n] && s[4..][n..] == s[4 + n..];
    return Payload(payload.value.value, socket.incoming), io;
  }

  /** The state after the dispatcher has seen this message, whether or not its reply can be written. */
  function Dispatched<S>(m: Message, state: S, service: Service<S>): S {
    if m.Payload? && service.answer(state, m.payload).Some? then service.answer(state, m.payload).value.0 else state
  }

  /** One turn of the loop: read, dispatch, write. `served` says whether the loop goes on. */
  method ServeNext<S>(socket: Socket, state: S, service: Service<S>) returns (end: S, served: bool)
    modifies socket
    ensures old(socket.Faultless()) ==> socket.Faultless()
    ensures var m := NextMessage(old(socket.incoming));
            && (served ==>
                  && m.Payload? && Serves(service, state, m.payload) && socket.incoming == m.rest
                  && socket.outgoing == old(socket.outgoing) + Frame(service.answer(state, m.payload).value.1))
            && (served || old(socket.Faultless()) ==> end == Dispatched(m, state, service))
            && (!served && old(socket.Faultless()) ==>
                  socket.outgoing == old(socket.outgoing) && (m.Payload? ==> !Serves(service, state, m.payload)))
            && (!served ==>
                  || socket.outgoing == old(socket.outgoing)
                  || ReplyStarted(m, state, service, old(socket.outgoing), socket.outgoing))
  {
    end, served := state, false;
    var m, io := ReadMessage(socket);
    if io.Failure? || !m.Payload? { return; }
    var answer := service.answer(state, m.payload);
    if answer.None? { return; }
    end := answer.value.0;
    var reply := answer.value.1;
    if |reply| >= TWO_TO_32 { return; }
    var sent := socket.SendAll(Frame(reply));
    served := sent.Success?;
  }

  /** The beginning of the reply to this message has been written. */
  ghost predicate ReplyStarted<S>(m: Message, state: S, service: Service<S>, before: seq<byte>, now: seq<byte>) {
    && m.Payload? && Serves(service, state, m.payload)
    && exists k | 0 <= k <= |Frame(service.answer(state, m.payload).value.1)| ::
         now == before + Frame(service.answer(state, m.payload).value.1)[..k]
  }

  /** The connection loop. On a faultless socket it serves exactly what `Session` says, whatever the chunking, and
      writes one reply per request, in order. When a `recv` or a `sendall` fails, it has written a prefix of those
      replies: whole frames for the first requests, and at most the beginning of the next one. */
  method HandleConnection<S>(socket: Socket, state: S, service: Service<S>, turns: nat) returns (end: S)
    modifies socket
    ensures var e := Session(old(socket.incoming), state, service, turns);
            && WroteInPart(e, old(socket.outgoing), socket.outgoing)
            && socket.outgoing <= old(socket.outgoing) + Stream(e.replies)
    ensures old(socket.Faultless()) ==>
              var e := Session(old(socket.incoming), state, service, turns);
              end == e.state && socket.outgoing == old(socket.outgoing) + Stream(e.replies)
  {
    end := state;
    ghost var e := Session(socket.incoming, state, service, turns);
    var turn, served := 0, true;
    while served && turn < turns
      invariant 0 <= turn <= turns
      invariant old(socket.Faultless()) ==> socket.Faultless()
      invariant served ==> Remains(e, turn, socket.incoming, end, service, turns - turn)
      invariant served ==> Wrote(e, turn, old(socket.outgoing), socket.outgoing)
      invariant !served ==> WroteInPart(e, old(socket.outgoing), socket.outgoing)
      invariant !served && old(socket.Faultless()) ==>
                  Wrote(e, |e.replies|, old(socket.outgoing), socket.outgoing) && end == e.state
      decreases served, turns - turn
    {
      ghost var s, before, faultless, written := socket.incoming, end, socket.Faultless(), socket.outgoing;
      end, served := ServeNext(socket, end, service);
      if served {
        OneReply(e, turn, s, before, service, turns - turn, old(socket.outgoing), written);
        turn := turn + 1;
      } else {
        LastWrite(e, turn, s, before, service, turns - turn, old(socket.outgoing), written, socket.outgoing);
        if faultless { SessionStops(e, turn, s, before, service, turns - turn); }
      }
    }
    if served {
      SessionStops(e, turn, socket.incoming, end, service, 0);
      WholeIsPart(e, turn, old(socket.outgoing), socket.outgoing);
    }
    assert e.replies[..|e.replies|] == e.replies;
    PartIsPrefix(e, old(socket.outgoing), socket.outgoing);
  }

  /** After `n` replies of the session `e`, what is left of it is the session on these bytes in this state. */
  ghost predicate Remains<S>(e: Ending<S>, n: nat, s: seq<byte>, state: S, service: Service<S>, turns: nat) {
    var left := Session(s, state, service, turns);
    Framable(e.replies) && n <= |e.replies| && e.replies[n..] == left.replies && e.state == left.state
  }

  /** The first `n` replies of the session have been written behind `before`. */
  ghost predicate Wrote<S>(e: Ending<S>, n: nat, before: seq<byte>, now: seq<byte>) {
    Framable(e.replies) && n <= |e.replies| && now == before + Stream(e.replies[..n])
  }

  /** Whole replies, and at most the beginning of the next one. */
  ghost predicate WroteInPart<S>(e: Ending<S>, before: seq<byte>, now: seq<byte>) {
    Framable(e.replies) && exists n: nat, part: seq<byte> :: WroteAndPart(e, n, part, before, now)
  }

  ghost predicate WroteAndPart<S>(e: Ending<S>, n: nat, part: seq<byte>, before: seq<byte>, now: seq<byte>)
    requires Framable(e.replies)
  {
    && n <= |e.replies| && now == before + Stream(e.replies[..n]) + part
    && (part == [] || (n < |e.replies| && part <= Frame(e.replies[n])))
  }

  lemma WholeIsPart<S>(e: Ending<S>, n: nat, before: seq<byte>, now: seq<byte>)
    ensures Wrote(e, n, before, now) ==> WroteInPart(e, before, now)
  {
    if Wrote(e, n, before, now) {
      assert before + Stream(e.replies[..n]) + [] == now;
      assert WroteAndPart(e, n, [], before, now);
    }
  }

  /** What has been written of a reply belongs to the next one of the session. */
  lemma PartOfReply<S>(e: Ending<S>, n: nat, s: seq<byte>, state: S, service: Service<S>, turns: nat, before: seq<byte>,
                       written: seq<byte>, now: seq<byte>)
    requires turns > 0 && Remains(e, n, s, state, service, turns) && Wrote(e, n, before, written)
    requires ReplyStarted(NextMessage(s), state, service, written, now)
    ensures WroteInPart(e, before, now)
  {
    var left := Session(s, state, service, turns);
    var reply := service.answer(state, NextMessage(s).payload).value.1;
    assert e.replies[n] == e.replies[n..][0] == left.replies[0] == reply;
    var k :| 0 <= k <= |Frame(reply)| && now == written + Frame(reply)[..k];
    assert WroteAndPart(e, n, Frame(reply)[..k], before, now);
  }

  /** The loop has stopped with nothing more, or the beginning of a reply, written. */
  lemma LastWrite<S>(e: Ending<S>, n: nat, s: seq<byte>, state: S, service: Service<S>, turns: nat, before: seq<byte>,
                     written: seq<byte>, now: seq<byte>)
    requires turns > 0 && Remains(e, n, s, state, service, turns) && Wrote(e, n, before, written)
    requires now == written || ReplyStarted(NextMessage(s), state, service, written, now)
    ensures WroteInPart(e, before, now)
  {
    if now == written {
      WholeIsPart(e, n, before, now);
    } else {
      PartOfReply(e, n, s, state, service, turns, before, written, now);
    }
  }

  lemma {:induction false} StreamSplit(ps: seq<seq<byte>>, n: nat)
    requires Framable(ps) && n <= |ps|
    ensures Stream(ps) == Stream(ps[..n]) + Stream(ps[n..])
  {
    if n > 0 {
      assert ps[..n][1..] == ps[1..][..n - 1] && ps[n..] == ps[1..][n - 1..];
      StreamSplit(ps[1..], n - 1);
    } else {
      assert ps[0..] == ps && ps[..0] == [];
    }
  }

  /** So it is a prefix of all the replies. */
  lemma PartIsPrefix<S>(e: Ending<S>, before: seq<byte>, now: seq<byte>)
    requires WroteInPart(e, before, now)
    ensures now <= before + Stream(e.replies)
  {
    var n: nat, part: seq<byte> :| WroteAndPart(e, n, part, before, now);
    StreamSplit(e.replies, n);
    var all := before + Stream(e.replies[..n]) + Stream(e.replies[n..]);
    assert all == before + Stream(e.replies);
    if part != [] {
      assert e.replies[n..][0] == e.replies[n];
      assert Frame(e.replies[n]) <= Stream(e.replies[n..]);
    }
    assert part <= Stream(e.replies[n..]);
  }

  /** The reply of one turn of the loop is the next one of the session. */
  lemma OneReply<S>(e: Ending<S>, n: nat, s: seq<byte>, state: S, service: Service<S>, turns: nat, before: seq<byte>,
                    written: seq<byte>)
    requires turns > 0 && Remains(e, n, s, state, service, turns) && Wrote(e, n, before, written)
    requires NextMessage(s).Payload? && Serves(service, state, NextMessage(s).payload)
    ensures var (state', reply) := service.answer(state, NextMessage(s).payload).value;
            && Remains(e, n + 1, NextMessage(s).rest, state', service, turns - 1)
            && Wrote(e, n + 1, before, written + Frame(reply))
  {
    var left := Session(s, state, service, turns);
    var (state', reply) := service.answer(state, NextMessage(s).payload).value;
    var later := Session(NextMessage(s).rest, state', service, turns - 1);
    assert left.replies == [reply] + later.replies;
    assert e.replies[n] == e.replies[n..][0] == reply;
    assert e.replies[n + 1..] == e.replies[n..][1..] == later.replies;
    assert e.replies[..n + 1] == e.replies[..n] + [reply];
    StreamAppend(e.replies[..n], reply);
  }

  /** Where the loop stops on its own account the session has no further reply, so all of them are written. */
  lemma SessionStops<S>(e: Ending<S>, n: nat, s: seq<byte>, state: S, service: Service<S>, turns: nat)
    requires Remains(e, n, s, state, service, turns)
    requires turns > 0 && NextMessage(s).Payload? ==> !Serves(service, state, NextMessage(s).payload)
    ensures n == |e.replies|
    ensures e.state == if turns > 0 then Dispatched(NextMessage(s), state, service) else state
  {
  }

  // ----- what the session promises -----

  /** The state after, and the replies to, a list of requests that are all answered. */
  function Replies<S>(ps: seq<seq<byte>>, state: S, service: Service<S>): (r: Option<(S, seq<seq<byte>>)>)
    ensures r.Some? ==> |r.value.1| == |ps| && Framable(r.value.1)
  {
    if ps == [] then Some((state, []))
    else
      match service.answer(state, ps[0])
      case None => None
      case Some((state', reply)) =>
        if |reply| >= TWO_TO_32 then None
        else
          match Replies(ps[1..], state', service)
          case None => None
          case Some((state'', replies)) => Some((state'', [reply] + replies))
  }

  lemma {:induction false} FramedMessage(p: seq<byte>, s: seq<byte>)
    requires IsPayload(p)
    ensures NextMessage(Frame(p) + s) == Payload(p, s)
  {
    FrameReads(p, s);
  }

  /** Streaming: any list of frames is served completely and in order, then the session ends cleanly. */
  lemma {:induction false} StreamServed<S>(ps: seq<seq<byte>>, state: S, service: Service<S>, turns: nat)
    requires Payloads(ps)
    requires Replies(ps, state, service).Some? && turns > |ps|
    ensures var e := Session(Stream(ps), state, service, turns);
            e == Ending(ps, Replies(ps, state, service).value.1, Replies(ps, state, service).value.0, true)
  {
    if ps != [] {
      FramedMessage(ps[0], Stream(ps[1..]));
      StreamServed(ps[1..], service.answer(state, ps[0]).value.0, service, turns - 1);
      assert [ps[0]] + ps[1..] == ps;
    }
  }

  /** A session that has served these requests before. */
  function Behind<S>(ps: seq<seq<byte>>, replies: seq<seq<byte>>, later: Ending<S>): Ending<S> {
    Ending(ps + later.served, replies + later.replies, later.state, later.clean)
  }

  lemma BehindBoth<S>(p: seq<byte>, ps: seq<seq<byte>>, reply: seq<byte>, replies: seq<seq<byte>>, later: Ending<S>)
    ensures Behind([p], [reply], Behind(ps, replies, later)) == Behind([p] + ps, [reply] + replies, later)
  {
    assert [p] + (ps + later.served) == [p] + ps + later.served;
    assert [reply] + (replies + later.replies) == [reply] + replies + later.replies;
  }

  lemma FirstServed<S>(p: seq<byte>, s: seq<byte>, state: S, service: Service<S>, turns: nat)
    requires IsPayload(p) && Serves(service, state, p)
    ensures var (after, reply) := service.answer(state, p).value;
            Session(Frame(p) + s, state, service, turns + 1)
            == Behind([p], [reply], Session(s, after, service, turns))
  {
    FramedMessage(p, s);
  }

  /** What the requests at the head of a stream make of a session: they are served, and the session goes on behind them
      in the state they leave. */
  lemma {:induction false} SessionGoesOn<S>(ps: seq<seq<byte>>, s: seq<byte>, state: S, service: Service<S>, turns: nat)
    requires Payloads(ps) && Replies(ps, state, service).Some?
    ensures var (after, replies) := Replies(ps, state, service).value;
            Session(Stream(ps) + s, state, service, |ps| + turns)
            == Behind(ps, replies, Session(s, after, service, turns))
  {
    if ps == [] {
      assert Stream(ps) + s == s;
    } else {
      var (state', reply) := service.answer(state, ps[0]).value;
      var (after, replies) := Replies(ps[1..], state', service).value;
      assert Stream(ps) + s == Frame(ps[0]) + (Stream(ps[1..]) + s);
      FirstServed(ps[0], Stream(ps[1..]) + s, state, service, |ps| - 1 + turns);
      SessionGoesOn(ps[1..], s, state', service, turns);
      BehindBoth(ps[0], ps[1..], reply, replies, Session(s, after, service, turns));
      assert [ps[0]] + ps[1..] == ps;
    }
  }

  lemma BehindNothing<S>(ps: seq<seq<byte>>, replies: seq<seq<byte>>, after: S, clean: bool)
    ensures Behind(ps, replies, Ending([], [], after, clean)) == Ending(ps, replies, after, clean)
  {
  }

  /** The stop event ends a session cleanly behind the requests it has served, with everything else unread. */
  lemma SessionIsStopped<S>(ps: seq<seq<byte>>, s: seq<byte>, state: S, service: Service<S>)
    requires Payloads(ps) && Replies(ps, state, service).Some?
    ensures var (after, replies) := Replies(ps, state, service).value;
            Session(Stream(ps) + s, state, service, |ps|) == Ending(ps, replies, after, true)
  {
    var (after, replies) := Replies(ps, state, service).value;
    SessionGoesOn(ps, s, state, service, 0);
    BehindNothing(ps, replies, after, true);
  }

  /** A frame without payload ends it by an exception. */
  lemma SessionEndsAtEmptyFrame<S>(ps: seq<seq<byte>>, s: seq<byte>, state: S, service: Service<S>, turns: nat)
    requires Payloads(ps) && Replies(ps, state, service).Some? && turns > 0
    ensures var (after, replies) := Replies(ps, state, service).value;
            Session(Stream(ps) + ([0, 0, 0, 0] + s), state, service, |ps| + turns) == Ending(ps, replies, after, false)
  {
    var (after, replies) := Replies(ps, state, service).value;
    SessionGoesOn(ps, [0, 0, 0, 0] + s, state, service, turns);
    EmptyFrame(s);
    BehindNothing(ps, replies, after, false);
  }

  /** So do a payload that the service does not take, and a reply that does not fit a frame; but then the service has
      acted on the request. */
  lemma SessionEndsAtRefusal<S>(ps: seq<seq<byte>>, p: seq<byte>, s: seq<byte>, state: S, service: Service<S>,
                                turns: nat)
    requires Payloads(ps) && Replies(ps, state, service).Some? && turns > 0 && IsPayload(p)
    requires !Serves(service, Replies(ps, state, service).value.0, p)
    ensures var (after, replies) := Replies(ps, state, service).value;
            var left := if service.answer(after, p).Some? then service.answer(after, p).value.0 else after;
            Session(Stream(ps) + (Frame(p) + s), state, service, |ps| + turns) == Ending(ps, replies, left, false)
  {
    var (after, replies) := Replies(ps, state, service).value;
    SessionGoesOn(ps, Frame(p) + s, state, service, turns);
    FramedMessage(p, s);
    BehindNothing(ps, replies, Session(Frame(p) + s, after, service, turns).state, false);
  }

  /** How many of the frames fit completely into the first `k` bytes. */
  function WholeFrames(ps: seq<seq<byte>>, k: nat): (m: nat)
    requires Payloads(ps)
    ensures m <= |ps|
  {
    if ps == [] || k < |Frame(ps[0])| then 0 else 1 + WholeFrames(ps[1..], k - |Frame(ps[0])|)
  }

  /** The part of a payload that is left of a frame cut behind its header, and the state that the whole frames before it
      leave; `None` when the cut falls elsewhere. */
  function CutRequest<S>(ps: seq<seq<byte>>, k: nat, state: S, service: Service<S>): (r: Option<(S, seq<byte>)>)
    requires Payloads(ps) && Replies(ps, state, service).Some?
  {
    if ps == [] then None
    else if k >= |Frame(ps[0])| then
      CutRequest(ps[1..], k - |Frame(ps[0])|, service.answer(state, ps[0]).value.0, service)
    else if k > 4 then Some((state, ps[0][..k - 4]))
    else None
  }

  /** The service does serve what is left of the request that was cut. */
  predicate CutIsServed<S>(ps: seq<seq<byte>>, k: nat, state: S, service: Service<S>)
    requires Payloads(ps) && Replies(ps, state, service).Some?
  {
    var cut := CutRequest(ps, k, state, service);
    cut.Some? && Serves(service, cut.value.0, cut.value.1)
  }

  /** Exactly the frames that arrived completely are served and answered, and the session ends cleanly exactly
      if the cut falls between two frames. */
  ghost predicate ServesWholeFrames<S>(ps: seq<seq<byte>>, k: nat, replies: seq<seq<byte>>, e: Ending<S>)
    requires Payloads(ps) && |replies| == |ps|
  {
    var m := WholeFrames(ps, k);
    e.served == ps[..m] && e.replies == replies[..m] && (e.clean <==> |Stream(ps[..m])| == k)
  }

  /** The request that was cut is served like a whole one, behind the whole ones, and the session ends cleanly. */
  ghost predicate ServesCutRequest<S>(ps: seq<seq<byte>>, k: nat, cut: seq<byte>, replies: seq<seq<byte>>, e: Ending<S>)
    requires Payloads(ps) && |replies| == |ps|
  {
    var m := WholeFrames(ps, k);
    e.served == ps[..m] + [cut] && |e.replies| == m + 1 && e.replies[..m] == replies[..m] && e.clean
  }

  /** Exactly the whole frames are served if and only if what is left of the cut request is not; and if it is, it is
      served like a whole one. */
  ghost predicate CutOutcome<S>(ps: seq<seq<byte>>, k: nat, state: S, service: Service<S>, e: Ending<S>)
    requires Payloads(ps) && Replies(ps, state, service).Some?
  {
    var replies := Replies(ps, state, service).value.1;
    && (ServesWholeFrames(ps, k, replies, e) <==> !CutIsServed(ps, k, state, service))
    && (CutIsServed(ps, k, state, service) ==>
          ServesCutRequest(ps, k, CutRequest(ps, k, state, service).value.1, replies, e))
  }

  /** A connection lost at byte `k` of a stream of requests: exactly the whole frames are served if and only if the
      service refuses what is left of the one request that was cut. */
  lemma {:induction false} CutStreamServed<S>(ps: seq<seq<byte>>, k: nat, state: S, service: Service<S>, turns: nat)
    requires Payloads(ps)
    requires Replies(ps, state, service).Some? && turns > |ps| && k <= |Stream(ps)|
    ensures CutOutcome(ps, k, state, service, Session(Stream(ps)[..k], state, service, turns))
  {
    if ps != [] {
      var p, more := ps[0], Stream(ps[1..]);
      if k < |Frame(p)| {
        CutInFirstFrame(ps, k, state, service, turns);
      } else {
        var k' := k - |Frame(p)|;
        var state' := service.answer(state, p).value.0;
        CutStreamServed(ps[1..], k', state', service, turns - 1);
        CutStep(ps, k, state, service, Session(more[..k'], state', service, turns - 1));
        assert Stream(ps)[..k] == Frame(p) + more[..k'];
        FramedMessage(p, more[..k']);
      }
    }
  }

  /** One whole frame more in front. */
  lemma CutStep<S>(ps: seq<seq<byte>>, k: nat, state: S, service: Service<S>, e: Ending<S>)
    requires Payloads(ps) && ps != [] && k >= |Frame(ps[0])| && Replies(ps, state, service).Some?
    requires CutOutcome(ps[1..], k - |Frame(ps[0])|, service.answer(state, ps[0]).value.0, service, e)
    ensures var reply := service.answer(state, ps[0]).value.1;
            CutOutcome(ps, k, state, service, Ending([ps[0]] + e.served, [reply] + e.replies, e.state, e.clean))
  {
    var (state', reply) := service.answer(state, ps[0]).value;
    var replies := Replies(ps[1..], state', service).value.1;
    ServedStep(ps, k, replies, reply, e);
    if CutIsServed(ps, k, state, service) {
      CutServedStep(ps, k, CutRequest(ps, k, state, service).value.1, replies, reply, e);
    }
  }

  lemma ServedStep<S>(ps: seq<seq<byte>>, k: nat, replies: seq<seq<byte>>, reply: seq<byte>, e: Ending<S>)
    requires Payloads(ps) && ps != [] && |replies| == |ps| - 1 && k >= |Frame(ps[0])|
    ensures ServesWholeFrames(ps, k, [reply] + replies,
                              Ending([ps[0]] + e.served, [reply] + e.replies, e.state, e.clean))
            <==> ServesWholeFrames(ps[1..], k - |Frame(ps[0])|, replies, e)
  {
    var m := WholeFrames(ps[1..], k - |Frame(ps[0])|);
    ExtendServed(ps, m);
    assert ([reply] + replies)[..m + 1] == [reply] + replies[..m];
    assert e.served == ([ps[0]] + e.served)[1..] && e.replies == ([reply] + e.replies)[1..];
  }

  lemma CutServedStep<S>(ps: seq<seq<byte>>, k: nat, cut: seq<byte>, replies: seq<seq<byte>>, reply: seq<byte>,
                         e: Ending<S>)
    requires Payloads(ps) && ps != [] && |replies| == |ps| - 1 && k >= |Frame(ps[0])|
    requires ServesCutRequest(ps[1..], k - |Frame(ps[0])|, cut, replies, e)
    ensures ServesCutRequest(ps, k, cut, [reply] + replies,
                             Ending([ps[0]] + e.served, [reply] + e.replies, e.state, e.clean))
  {
    var m := WholeFrames(ps[1..], k - |Frame(ps[0])|);
    ExtendServed(ps, m);
    assert ([reply] + replies)[..m + 1] == [reply] + replies[..m];
    assert ([reply] + e.replies)[..m + 1] == [reply] + e.replies[..m];
  }

  lemma CutInFirstFrame<S>(ps: seq<seq<byte>>, k: nat, state: S, service: Service<S>, turns: nat)
    requires ps != [] && Payloads(ps) && k < |Frame(ps[0])| && turns > 1
    ensures k <= |Stream(ps)| && WholeFrames(ps, k) == 0
    ensures var e, part := Session(Stream(ps)[..k], state, service, turns), ps[0][..if k > 4 then k - 4 else 0];
            if k > 4 && Serves(service, state, part) then
              e.served == [part] && |e.replies| == 1 && e.clean
            else
              e.served == [] && e.replies == [] && (e.clean <==> k == 0)
  {
    assert Stream(ps)[..k] == Frame(ps[0])[..k];
    CutFrame(ps[0], k);
  }

  lemma ExtendServed(ps: seq<seq<byte>>, m: nat)
    requires Framable(ps) && m < |ps|
    ensures ps[..m + 1] == [ps[0]] + ps[1..][..m]
    ensures |Stream(ps[..m + 1])| == |Frame(ps[0])| + |Stream(ps[1..][..m])|
  {
    assert ps[..m + 1] == [ps[0]] + ps[1..][..m];
    assert ps[..m + 1][1..] == ps[1..][..m];
  }

  /** What the server makes of the first `k` bytes of a frame. */
  lemma CutFrame(p: seq<byte>, k: nat)
    requires IsPayload(p) && k < |Frame(p)|
    ensures NextMessage(Frame(p)[..k]) == if k == 0 then EndOfStream else if k <= 4 then Broken
            else Payload(p[..k - 4], [])
  {
    if k >= 4 {
      FramePrefixReads(p, k);
    }
  }

  /** A single request, cut behind its header: a connection closed in the middle of a payload is noticed only when not
      one payload byte arrived, or when the service refuses the ones that did. */
  lemma CutPayloadReachesTheDispatcher<S>(p: seq<byte>, k: nat, state: S, service: Service<S>, turns: nat)
    requires IsPayload(p) && 4 < k < |Frame(p)| && turns > 1
    requires service.answer(state, p[..k - 4]).Some? && |service.answer(state, p[..k - 4]).value.1| < TWO_TO_32
    ensures Session(Frame(p)[..k], state, service, turns).served == [p[..k - 4]]
    ensures Session(Frame(p)[..k], state, service, turns).clean
  {
    assert Stream([p]) == Frame(p);
    CutInFirstFrame([p], k, state, service, turns);
  }
}
