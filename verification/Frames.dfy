/** Length-prefixed frames, and the two loops that read an exact number of bytes from a socket. */
module Frames {
  import opened Bytes
  import opened Results

  const TWO_TO_32: int := 0x1_0000_0000

  predicate IsPayload(p: seq<byte>) {
    0 < |p| < TWO_TO_32
  }

  /** Sequences of payloads whose length fits the header, and of those that are not empty either. */
  predicate Framable(ps: seq<seq<byte>>) {
    forall i | 0 <= i < |ps| :: |ps[i]| < TWO_TO_32
  }

  predicate Payloads(ps: seq<seq<byte>>) {
    forall i | 0 <= i < |ps| :: IsPayload(ps[i])
  }

  lemma Pow256Of4()
    ensures Pow256(4) == TWO_TO_32
  {
    assert Pow256(3) == 256 * Pow256(2) && Pow256(4) == 256 * Pow256(3);
  }

  /** `_encode_frame` and `_write_message`: four big-endian length bytes, then the payload. */
  function Frame(p: seq<byte>): (f: seq<byte>)
    requires |p| < TWO_TO_32
    ensures |f| == 4 + |p|
  {
    Pow256Of4();
    ToBytes(|p|, 4) + p
  }

  function Stream(ps: seq<seq<byte>>): seq<byte>
    requires Framable(ps)
  {
    if ps == [] then [] else Frame(ps[0]) + Stream(ps[1..])
  }

  /** The length a stream of at least four bytes announces. */
  function Announced(s: seq<byte>): (n: nat)
    requires |s| >= 4
    ensures n < TWO_TO_32
  {
    Pow256Of4();
    assert |s[..4]| == 4;
    FromBytes(s[..4])
  }

  lemma FrameReads(p: seq<byte>, s: seq<byte>)
    requires |p| < TWO_TO_32
    ensures Announced(Frame(p) + s) == |p|
    ensures (Frame(p) + s)[4..4 + |p|] == p && (Frame(p) + s)[4 + |p|..] == s
  {
    Pow256Of4();
    FromToBytes(|p|, 4);
    assert (Frame(p) + s)[..4] == ToBytes(|p|, 4);
  }

  /** A frame cut short announces its full length as soon as the header is there. */
  lemma FramePrefixReads(p: seq<byte>, k: nat)
    requires |p| < TWO_TO_32 && 4 <= k <= 4 + |p|
    ensures Announced(Frame(p)[..k]) == |p|
    ensures Frame(p)[..k][4..] == p[..k - 4]
  {
    FrameReads(p, []);
    assert Frame(p) + [] == Frame(p);
    assert Frame(p)[..k][..4] == Frame(p)[..4];
  }

  lemma {:induction false} StreamAppend(ps: seq<seq<byte>>, p: seq<byte>)
    requires Framable(ps) && |p| < TWO_TO_32
    ensures Framable(ps + [p])
    ensures Stream(ps + [p]) == Stream(ps) + Frame(p)
  {
    if ps == [] {
      assert ps + [p] == [p] && [p][1..] == [];
      assert Stream([p]) == Frame(p) + Stream([]);
    } else {
      assert (ps + [p])[1..] == ps[1..] + [p] && (ps + [p])[0] == ps[0];
      StreamAppend(ps[1..], p);
      assert Frame(ps[0]) + (Stream(ps[1..]) + Frame(p)) == Frame(ps[0]) + Stream(ps[1..]) + Frame(p);
    }
  }

  // ----- sockets -----

  /** What the network does to one `recv` call: deliver at most so many bytes, or fail. */
  datatype Delivery = Chunk(limit: nat) | TimesOut | Breaks

  datatype IoError = TimeoutError | ConnectionError

  /** What it does to one `sendall` call: take everything, or fail when so many bytes have gone out. */
  datatype Sending = Whole | Part(count: nat, fault: IoError)

  /** One end of a connection. `incoming` is what the peer sends before it closes; `schedule` cuts it into chunks and
      injects failures, and `writes` does the latter for what goes out. An exhausted schedule delivers as much as is
      asked for and takes what it is given. */
  class Socket {
    var incoming: seq<byte>
    var outgoing: seq<byte>
    var schedule: seq<Delivery>
    var writes: seq<Sending>

    constructor (incoming: seq<byte>, schedule: seq<Delivery>, writes: seq<Sending>)
      ensures this.incoming == incoming && this.schedule == schedule && this.writes == writes && outgoing == []
    {
      this.incoming, this.outgoing, this.schedule, this.writes := incoming, [], schedule, writes;
    }

    /** Neither a `recv` nor a `sendall` will fail. */
    predicate Faultless()
      reads this
    {
      (forall d | d in schedule :: d.Chunk?) && forall w | w in writes :: w.Whole?
    }

    /** `sendall`: everything, or the first bytes and an exception. */
    method SendAll(bytes: seq<byte>) returns (r: Result<(), IoError>)
      modifies this`outgoing, this`writes
      ensures r.Success? <==> old(writes) == [] || old(writes)[0].Whole?
      ensures r.Success? ==> outgoing == old(outgoing) + bytes
      ensures r.Failure? ==> exists k | 0 <= k <= |bytes| :: outgoing == old(outgoing) + bytes[..k]
      ensures old(Faultless()) ==> r.Success? && Faultless()
    {
      var next := if writes == [] then Whole else writes[0];
      assert next == Whole || next in writes;
      writes := if writes == [] then [] else writes[1..];
      match next
      case Whole =>
        outgoing := outgoing + bytes;
        r := Success(());
      case Part(count, fault) =>
        outgoing := outgoing + bytes[..if count < |bytes| then count else |bytes|];
        r := Failure(fault);
    }

    /** `recv`: a non-empty chunk of the stream, or nothing once the stream has ended. */
    method Recv(n: nat) returns (r: Result<seq<byte>, IoError>)
      requires n > 0
      modifies this`incoming, this`schedule
      ensures r.Success? ==> |r.value| <= n && old(incoming) == r.value + incoming
      ensures r.Success? ==> (r.value == [] <==> old(incoming) == [])
      ensures r.Failure? ==> incoming == old(incoming)
      ensures r == Failure(TimeoutError) ==> TimesOut in old(schedule)
      ensures r == Failure(ConnectionError) ==> Breaks in old(schedule)
      ensures old(Faultless()) ==> r.Success? && Faultless()
      ensures forall d | d in schedule :: d in old(schedule)
    {
      var limit := n;
      if schedule != [] {
        var next := schedule[0];
        schedule := schedule[1..];
        match next
        case TimesOut => return Failure(TimeoutError);
        case Breaks => return Failure(ConnectionError);
        case Chunk(k) => limit := if k == 0 then 1 else if k < n then k else n;
      }
      var size := if limit < |incoming| then limit else |incoming|;
      r := Success(incoming[..size]);
      incoming := incoming[size..];
    }
  }

  // ----- the client's side -----

  datatype ClientFault = Timeout | Transport | Malformed

  function Fault(e: IoError): ClientFault {
    if e == TimeoutError then Timeout else Transport
  }

  /** The client's `_recv_exact`: all `n` bytes, or an exception. How the stream was cut up does not matter. */
  method ClientRecvExact(socket: Socket, n: nat) returns (r: Result<seq<byte>, ClientFault>)
    modifies socket`incoming, socket`schedule
    ensures r.Success? ==>
              n <= |old(socket.incoming)| && r.value == old(socket.incoming)[..n]
              && socket.incoming == old(socket.incoming)[n..]
    ensures r.Failure? ==> r.error != Malformed
    ensures r == Failure(Timeout) ==> TimesOut in old(socket.schedule)
    ensures r == Failure(Transport) ==> Breaks in old(socket.schedule) || n > |old(socket.incoming)|
    ensures old(socket.Faultless()) ==> socket.Faultless() && (r.Success? <==> n <= |old(socket.incoming)|)
    ensures forall d | d in socket.schedule :: d in old(socket.schedule)
  {
    var buffer: seq<byte> := [];
    while |buffer| < n
      invariant |buffer| <= n
      invariant old(socket.incoming) == buffer + socket.incoming
      invariant forall d | d in socket.schedule :: d in old(socket.schedule)
      invariant old(socket.Faultless()) ==> socket.Faultless()
      decreases n - |buffer|
    {
      var chunk := socket.Recv(n - |buffer|);
      if chunk.Failure? { return Failure(Fault(chunk.error)); }
      if chunk.value == [] { return Failure(Transport); }
      buffer := buffer + chunk.value;
    }
    r := Success(buffer);
  }

  /** A reply frame at the head of a byte stream, as the client reads it. */
  datatype Reply<+R> = Received(reply: R, rest: seq<byte>) | Refused(fault: ClientFault)

  function NextReply<R>(s: seq<byte>, parse: seq<byte> -> Option<R>): (r: Reply<R>) {
    if |s| < 4 then Refused(Transport)
    else
      var n := Announced(s);
      if n == 0 then Refused(Malformed)
      else if |s| < 4 + n then Refused(Transport)
      else
        match parse(s[4..4 + n])
        case None => Refused(Malformed)
        case Some(reply) => Received(reply, s[4 + n..])
  }

  /** `_decode_frame(_recv_exact(connection, 4), connection)`. */
  method ReceiveReply<R>(socket: Socket, parse: seq<byte> -> Option<R>) returns (r: Result<R, ClientFault>)
    modifies socket`incoming, socket`schedule
    ensures r.Success? ==> NextReply(old(socket.incoming), parse) == Received(r.value, socket.incoming)
    ensures r == Failure(Malformed) ==> NextReply(old(socket.incoming), parse) == Refused(Malformed)
    ensures r == Failure(Timeout) ==> TimesOut in old(socket.schedule)
    ensures r == Failure(Transport) ==>
              Breaks in old(socket.schedule) || NextReply(old(socket.incoming), parse) == Refused(Transport)
    ensures old(socket.Faultless()) && r.Failure? ==> NextReply(old(socket.incoming), parse) == Refused(r.error)
  {
    var header := ClientRecvExact(socket, 4);
    if header.Failure? { return Failure(header.error); }
    var n := Announced(header.value);
    ghost var s := old(socket.incoming);
    assert header.value[..4] == s[..4];
    if n == 0 { return Failure(Malformed); }
    var payload := ClientRecvExact(socket, n);
    if payload.Failure? { return Failure(payload.error); }
    assert payload.value == s[4..4 + n];
    var decoded := parse(payload.value);
    r := if decoded.None? then Failure(Malformed) else Success(decoded.value);
  }

  lemma ReplyReadBack<R>(p: seq<byte>, s: seq<byte>, parse: seq<byte> -> Option<R>)
    requires IsPayload(p)
    ensures NextReply(Frame(p) + s, parse) == if parse(p).Some? then Received(parse(p).value, s) else Refused(Malformed)
  {
    FrameReads(p, s);
  }

  /** A reply frame cut at any byte is a transport fault, never a malformed reply. */
  lemma CutReply<R>(p: seq<byte>, k: nat, parse: seq<byte> -> Option<R>)
    requires IsPayload(p) && k < |Frame(p)|
    ensures NextReply(Frame(p)[..k], parse) == Refused(Transport)
  {
    if k >= 4 { FramePrefixReads(p, k); }
  }

  /** A frame that announces no payload is malformed, whatever follows. */
  lemma EmptyReply<R>(s: seq<byte>, parse: seq<byte> -> Option<R>)
    ensures NextReply([0, 0, 0, 0] + s, parse) == Refused(Malformed)
  {
    EmptyFrame(s);
  }

  lemma EmptyFrame(s: seq<byte>)
    ensures Frame([]) == [0, 0, 0, 0] && Announced([0, 0, 0, 0] + s) == 0
  {
    FrameReads([], s);
    assert ToBytes(0, 1) == [0] && ToBytes(0, 2) == [0, 0] && ToBytes(0, 3) == [0, 0, 0];
  }

  // ----- the server's side -----

  /** The server's `_recv_exact` on a stream with `s` left: `None` at a clean end, and whatever there was when
      the stream ends in the middle. */
  function ServerExact(s: seq<byte>, n: nat): Option<seq<byte>> {
    if |s| >= n then Some(s[..n]) else if s == [] then None else Some(s)
  }

  method ServerRecvExact(socket: Socket, n: nat) returns (r: Result<Option<seq<byte>>, IoError>)
    modifies socket`incoming, socket`schedule
    ensures r.Success? ==> r.value == ServerExact(old(socket.incoming), n)
    ensures r.Success? ==> socket.incoming == if |old(socket.incoming)| >= n then old(socket.incoming)[n..] else []
    ensures old(socket.Faultless()) ==> r.Success? && socket.Faultless()
  {
    var buffer: seq<byte> := [];
    while |buffer| < n
      invariant |buffer| <= n
      invariant old(socket.incoming) == buffer + socket.incoming
      invariant old(socket.Faultless()) ==> socket.Faultless()
      decreases n - |buffer|
    {
      var chunk := socket.Recv(n - |buffer|);
      if chunk.Failure? { return Failure(chunk.error); }
      if chunk.value == [] {
        assert old(socket.incoming) == buffer;
        return Success(if buffer == [] then None else Some(buffer));
      }
      buffer := buffer + chunk.value;
    }
    r := Success(Some(buffer));
  }
}
