/** Concurrent `send_request` calls over pooled connections: threads, byte streams and the server as one transition
    system. Between any two steps any other thread may run, any connection may fail, and bytes may be delivered in
    chunks of any size. */
module RpcProtocol {
  import opened Bytes
  import opened Results
  import opened Frames

  /** `parses` says which reply payloads are JSON objects. */
  datatype Config = Config(maxRetries: int, maxPoolSize: int, parses: seq<byte> -> bool)

  /** A request payload the server read from a connection, and the reply payload it wrote for it. */
  datatype Exchange = Exchange(request: seq<byte>, reply: seq<byte>)

  /** A connection: the bytes sent either way, how far either side has read, and the server's exchanges on it. */
  datatype Conn = Conn(toServer: seq<byte>, serverRead: nat, fromServer: seq<byte>, clientRead: nat, log: seq<Exchange>)

  /** Where a thread stands inside `send_request`. `base` is the number of exchanges its connection had seen before. */
  datatype Thread =
    | Acquiring(request: seq<byte>, attempt: nat)
    | Connecting(request: seq<byte>, attempt: nat)
    | Sending(request: seq<byte>, attempt: nat, conn: nat, base: nat, sent: nat)
    | Receiving(request: seq<byte>, attempt: nat, conn: nat, base: nat, buffer: seq<byte>)
    | Releasing(request: seq<byte>, attempt: nat, conn: nat, base: nat, reply: seq<byte>)
    | Sleeping(request: seq<byte>, attempt: nat)

  datatype ErrorKind = TimedOut | CommunicationFailed | MalformedReply

  /** How a call ended. A returned reply is exchange number `index` of connection `conn`. */
  datatype Outcome = Returned(request: seq<byte>, reply: seq<byte>, conn: nat, index: nat)
      | Raised(request: seq<byte>, error: ErrorKind)

  /** Connections are numbered as they are opened. */
  datatype State = State(pool: seq<nat>, conns: seq<Conn>, closed: set<nat>, threads: map<nat, Thread>,
      outcomes: seq<Outcome>)

  datatype Step =
    | Start(thread: nat, request: seq<byte>)
    | TakePooled(thread: nat)
    | FindPoolEmpty(thread: nat)
    | Connect(thread: nat)
    | RefuseConnection(thread: nat, timeout: bool)
    | Send(thread: nat, count: nat)
    | Serve(conn: nat, reply: seq<byte>)
    | Receive(thread: nat, count: nat)
    | Fault(thread: nat, timeout: bool)
    | Wake(thread: nat)
    | Release(thread: nat)
    | AfterClose(conn: nat, after: Conn)

  // ----- the steps -----

  /** The payload of a complete frame at the head of a stream. */
  function FirstPayload(s: seq<byte>): (r: Option<seq<byte>>)
    ensures r.Some? ==> |r.value| < TWO_TO_32
  {
    if |s| < 4 || |s| < 4 + Announced(s) then None else Some(s[4..4 + Announced(s)])
  }

  /** How many bytes `_recv_exact` still asks for. */
  function Wanted(buffer: seq<byte>): int {
    if |buffer| < 4 then 4 - |buffer| else 4 + Announced(buffer) - |buffer|
  }

  predicate Enabled(cfg: Config, s: State, step: Step) {
    match step
    case Start(t, request) => t !in s.threads && IsPayload(request)
    case TakePooled(t) => t in s.threads && s.threads[t].Acquiring? && s.pool != []
    case FindPoolEmpty(t) => t in s.threads && s.threads[t].Acquiring? && s.pool == []
    case Connect(t) => t in s.threads && s.threads[t].Connecting?
    case RefuseConnection(t, _) => t in s.threads && s.threads[t].Connecting?
    case Send(t, count) => t in s.threads && s.threads[t].Sending? && s.threads[t].conn < |s.conns|
                           && IsPayload(s.threads[t].request)
                              && 0 < count <= 4 + |s.threads[t].request| - s.threads[t].sent
    case Serve(c, reply) => c < |s.conns| && s.conns[c].serverRead <= |s.conns[c].toServer| && |reply| < TWO_TO_32
                            && FirstPayload(s.conns[c].toServer[s.conns[c].serverRead..]).Some?
    case Receive(t, count) => t in s.threads && s.threads[t].Receiving? && s.threads[t].conn < |s.conns|
                              && 0 < count <= Wanted(s.threads[t].buffer)
                              && s.conns[s.threads[t].conn].clientRead + count
                                 <= |s.conns[s.threads[t].conn].fromServer|
    case Fault(t, _) => t in s.threads && (s.threads[t].Sending? || s.threads[t].Receiving?)
    case Wake(t) => t in s.threads && s.threads[t].Sleeping?
    case Release(t) => t in s.threads && s.threads[t].Releasing?
    case AfterClose(c, after) => c in s.closed && c < |s.conns| && s.conns[c].log <= after.log
  }

  function Kind(timeout: bool): ErrorKind {
    if timeout then TimedOut else CommunicationFailed
  }

  /** A failed attempt: sleep and try again, or give up with the kind of this fault. */
  function AfterFault(cfg: Config, s: State, t: nat, request: seq<byte>, attempt: nat, timeout: bool): State {
    if attempt >= cfg.maxRetries then
      s.(threads := s.threads - {t}, outcomes := s.outcomes + [Raised(request, Kind(timeout))])
    else
      s.(threads := s.threads[t := Sleeping(request, attempt)])
  }

  /** The client has read a whole frame, or a header it rejects. */
  function AfterBytes(cfg: Config, s: State, t: nat, th: Thread, buffer: seq<byte>): State
    requires th.Receiving?
  {
    if Wanted(buffer) > 0 then s.(threads := s.threads[t := th.(buffer := buffer)])
    else if |buffer| > 4 && cfg.parses(buffer[4..]) then
      s.(threads := s.threads[t := Releasing(th.request, th.attempt, th.conn, th.base, buffer[4..])])
    else
      s.(threads := s.threads - {t}, closed := s.closed + {th.conn},
         outcomes := s.outcomes + [Raised(th.request, MalformedReply)])
  }

  /** One `recv` that delivers the next `count` bytes. */
  function DoReceive(cfg: Config, s: State, t: nat, count: nat): State
    requires t in s.threads && s.threads[t].Receiving? && s.threads[t].conn < |s.conns|
    requires s.conns[s.threads[t].conn].clientRead + count <= |s.conns[s.threads[t].conn].fromServer|
  {
    var th := s.threads[t];
    var c := s.conns[th.conn];
    var chunk := c.fromServer[c.clientRead..c.clientRead + count];
    AfterBytes(cfg, s.(conns := s.conns[th.conn := c.(clientRead := c.clientRead + count)]), t, th, th.buffer + chunk)
  }

  function ServeOne(c: Conn, reply: seq<byte>): Conn
    requires c.serverRead <= |c.toServer| && |reply| < TWO_TO_32
    requires FirstPayload(c.toServer[c.serverRead..]).Some?
  {
    var p := FirstPayload(c.toServer[c.serverRead..]).value;
    Conn(c.toServer, c.serverRead + 4 + |p|, c.fromServer + Frame(reply), c.clientRead, c.log + [Exchange(p, reply)])
  }

  function Apply(cfg: Config, s: State, step: Step): State
    requires Enabled(cfg, s, step)
  {
    match step
    case Start(t, request) =>
      if cfg.maxRetries <= 0 then s.(outcomes := s.outcomes + [Raised(request, CommunicationFailed)])
      else s.(threads := s.threads[t := Acquiring(request, 1)])
    case TakePooled(t) =>
      var Acquiring(request, attempt) := s.threads[t];
      var c := s.pool[|s.pool| - 1];
      s.(pool := s.pool[..|s.pool| - 1],
         threads := s.threads[t := Sending(request, attempt, c, if c < |s.conns| then |s.conns[c].log| else 0, 0)])
    case FindPoolEmpty(t) =>
      s.(threads := s.threads[t := Connecting(s.threads[t].request, s.threads[t].attempt)])
    case Connect(t) =>
      s.(conns := s.conns + [Conn([], 0, [], 0, [])],
         threads := s.threads[t := Sending(s.threads[t].request, s.threads[t].attempt, |s.conns|, 0, 0)])
    case RefuseConnection(t, timeout) => AfterFault(cfg, s, t, s.threads[t].request, s.threads[t].attempt, timeout)
    case Send(t, count) =>
      var Sending(request, attempt, c, base, sent) := s.threads[t];
      var bytes := Frame(request)[sent..sent + count];
      s.(conns := s.conns[c := s.conns[c].(toServer := s.conns[c].toServer + bytes)],
         threads := s.threads[t := if sent + count == |Frame(request)| then Receiving(request, attempt, c, base, [])
                                   else Sending(request, attempt, c, base, sent + count)])
    case Serve(c, reply) => s.(conns := s.conns[c := ServeOne(s.conns[c], reply)])
    case Receive(t, count) => DoReceive(cfg, s, t, count)
    case Fault(t, timeout) =>
      AfterFault(cfg, s.(closed := s.closed + {s.threads[t].conn}), t, s.threads[t].request,
          s.threads[t].attempt, timeout)
    case Wake(t) => s.(threads := s.threads[t := Acquiring(s.threads[t].request, s.threads[t].attempt + 1)])
    case Release(t) =>
      var Releasing(request, attempt, c, base, reply) := s.threads[t];
      var done := s.(threads := s.threads - {t}, outcomes := s.outcomes + [Returned(request, reply, c, base)]);
      if |s.pool| >= cfg.maxPoolSize then done.(closed := s.closed + {c}) else done.(pool := s.pool + [c])
    case AfterClose(c, after) => s.(conns := s.conns[c := after])
  }

  function Init(): State {
    State([], [], {}, map[], [])
  }

  predicate CanRun(cfg: Config, s: State, steps: seq<Step>)
    decreases |steps|
  {
    steps == [] || (Enabled(cfg, s, steps[0]) && CanRun(cfg, Apply(cfg, s, steps[0]), steps[1..]))
  }

  function Run(cfg: Config, s: State, steps: seq<Step>): State
    requires CanRun(cfg, s, steps)
    decreases |steps|
  {
    if steps == [] then s else Run(cfg, Apply(cfg, s, steps[0]), steps[1..])
  }
}
