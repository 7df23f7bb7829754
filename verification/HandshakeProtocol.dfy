/** The handshake as two concurrent programs over two byte pipes: every chunking of
    the bytes, every interleaving, connection drops and client timeouts. */
module HandshakeProtocol {
  import opened Bytes
  import opened Crypto
  import opened Framing
  import opened Handshake

  /** Where each program stands: before its next send, or inside a `_recv_message`. */
  datatype ClientPc =
    | Connected
    | AwaitHello
    | Derived(keys: SessionKeys)
    | AwaitFinal(keys: SessionKeys)
    | Ended(outcome: Outcome)

  datatype ServerPc =
    | AwaitClient
    | Refusing(text: ErrorText)
    | Greeting(keys: SessionKeys)
    | AwaitAck(keys: SessionKeys)
    | Verified(keys: SessionKeys)
    | PortSent(keys: SessionKeys)
    | Returned(result: Option<SessionKeys>)

  /** One direction of the connection: all bytes ever written, how many of them the
      receiver has taken, and the point a drop cut it off, if any. */
  datatype Pipe = Pipe(sent: Wire, taken: nat, cut: Option<nat>) {
    function Limit(): nat {
      if cut.Some? && cut.value < |sent| then cut.value else |sent|
    }

    predicate Valid() { taken <= Limit() }

    function Available(): nat
      requires Valid()
    {
      Limit() - taken
    }

    function Write(w: Wire): Pipe { this.(sent := sent + w) }
  }

  /** `faulty` records that a drop or a timeout has happened. */
  datatype State = State(
    client: ClientPc, clientBuf: Wire, up: Pipe,
    server: ServerPc, serverBuf: Wire, down: Pipe,
    serverClosed: bool, dropped: bool, faulty: bool)

  datatype Setup = Setup(c: Client, s: Server)

  /** X25519 takes the key of any key pair, so neither side rejects the other's. */
  predicate Ready(p: Setup) {
    ClientReady(p.c) && ServerReady(p.s) && p.s.public !in p.c.lowOrder && p.c.public !in p.s.lowOrder
  }

  const START: State :=
    State(Connected, [], Pipe([], 0, None), AwaitClient, [], Pipe([], 0, None), false, false, false)

  datatype Action =
    | ClientSend | ClientRecv(n: nat) | ClientHandle | ClientEof | ClientFault
    | ServerSend | ServerRecv(n: nat) | ServerHandle | ServerEof | ServerFault | ServerReturn | ServerClose
    | Drop(up: nat, down: nat)

  /** How many bytes the current `_recv_exact` still asks for; 0 once the message is
      complete or its length field is over the limit. */
  function Wanted(buf: Wire): nat {
    if |buf| < HEADER_SIZE then HEADER_SIZE - |buf|
    else if SizeField(buf) > MAX_SIZE || |buf| >= HEADER_SIZE + SizeField(buf) then 0
    else HEADER_SIZE + SizeField(buf) - |buf|
  }

  predicate ClientWaits(st: State) { st.client.AwaitHello? || st.client.AwaitFinal? }
  predicate ServerWaits(st: State) { st.server.AwaitClient? || st.server.AwaitAck? }

  /** `perform_handshake` closes its socket on every way out. */
  predicate ClientClosed(st: State) { st.client.Ended? }

  predicate Enabled(p: Setup, st: State, a: Action) {
    match a
    case ClientSend => st.client.Connected? || st.client.Derived?
    case ClientRecv(n) => ClientWaits(st) && 0 < n <= Wanted(st.clientBuf) && st.down.Valid() && n <= st.down.Available()
    case ClientHandle => ClientWaits(st) && Wanted(st.clientBuf) == 0
    case ClientEof =>
      ClientWaits(st) && Wanted(st.clientBuf) > 0 && st.down.Valid() && st.down.Available() == 0 &&
      (st.serverClosed || st.dropped)
    case ClientFault => !st.client.Ended?
    case ServerSend => st.server.Refusing? || st.server.Greeting? || st.server.Verified?
    case ServerRecv(n) => ServerWaits(st) && 0 < n <= Wanted(st.serverBuf) && st.up.Valid() && n <= st.up.Available()
    case ServerHandle => ServerWaits(st) && Wanted(st.serverBuf) == 0
    case ServerEof =>
      ServerWaits(st) && Wanted(st.serverBuf) > 0 && st.up.Valid() && st.up.Available() == 0 &&
      (ClientClosed(st) || st.dropped)
    case ServerFault => !st.server.Returned? && !st.server.PortSent? && (st.dropped || ClientClosed(st))
    case ServerReturn => st.server.PortSent?
    case ServerClose => st.server == Returned(None) && !st.serverClosed
    case Drop(up, down) => !st.dropped && st.up.taken <= up && st.down.taken <= down
  }

  function Fail(st: State, e: ClientError): State {
    st.(client := Ended(Failed(e)))
  }

  function FailServer(st: State): State {
    st.(server := Returned(None))
  }

  /** The client's next send, with the exception `struct.pack` may raise instead. */
  function StepClientSend(p: Setup, st: State): State
    requires Ready(p) && (st.client.Connected? || st.client.Derived?)
  {
    LengthFits();
    if st.client.Connected? then
      match HelloMessage(p.c)
      case None => Fail(st, StructError)
      case Some(hello) => st.(client := AwaitHello, up := st.up.Write(Frame(hello)))
    else
      st.(client := AwaitFinal(st.client.keys), up := st.up.Write(Frame(AckMessage(p.c, st.client.keys))))
  }

  /** Where the client goes on a complete message. */
  function ClientAfter(p: Setup, client: ClientPc, buf: Wire): ClientPc
    requires client.AwaitHello? || client.AwaitFinal?
  {
    match Read(buf, Closed)
    case Fails(why, _) => Ended(Failed(ReadError(why)))
    case Got(m, _) =>
      if client.AwaitHello? then
        match OnServerHello(p.c, m)
        case Err(e) => Ended(Failed(e))
        case Ok(keys) => Derived(keys)
      else
        match OnFinal(m)
        case Err(e) => Ended(Failed(e))
        case Ok(port) => Ended(Done(client.keys, port))
  }

  function StepClientHandle(p: Setup, st: State): State
    requires ClientWaits(st)
  {
    st.(clientBuf := [], client := ClientAfter(p, st.client, st.clientBuf))
  }

  /** Where the server goes with its next send, and the bytes; struct.error sends none. */
  function ServerSends(p: Setup, server: ServerPc): (ServerPc, Wire)
    requires Ready(p) && (server.Refusing? || server.Greeting? || server.Verified?)
  {
    LengthFits();
    match server
    case Refusing(text) => (Returned(None), Frame(RefusalMessage(text)))
    case Greeting(keys) => (AwaitAck(keys), Frame(ServerHelloMessage(p.s)))
    case Verified(keys) =>
      match PortMessage(p.s.port)
      case None => (Returned(None), [])
      case Some(final) => (PortSent(keys), Frame(final))
  }

  function StepServerSend(p: Setup, st: State): State
    requires Ready(p) && (st.server.Refusing? || st.server.Greeting? || st.server.Verified?)
  {
    var (next, bytes) := ServerSends(p, st.server);
    st.(server := next, down := st.down.Write(bytes))
  }

  /** Where the server goes on a complete message. */
  function ServerAfter(p: Setup, server: ServerPc, buf: Wire): ServerPc
    requires server.AwaitClient? || server.AwaitAck?
  {
    match Read(buf, Closed)
    case Fails(_, _) => Returned(None)
    case Got(m, _) =>
      if server.AwaitClient? then
        match OnClientHello(p.s, m)
        case Silent => Returned(None)
        case Refuse(text) => Refusing(text)
        case Accept(keys) => Greeting(keys)
      else if AckAccepted(server.keys, m) then Verified(server.keys)
      else Returned(None)
  }

  function StepServerHandle(p: Setup, st: State): State
    requires ServerWaits(st)
  {
    st.(serverBuf := [], server := ServerAfter(p, st.server, st.serverBuf))
  }

  function Apply(p: Setup, st: State, a: Action): State
    requires Ready(p) && Enabled(p, st, a)
  {
    match a
    case ClientSend => StepClientSend(p, st)
    case ClientRecv(n) =>
      st.(clientBuf := st.clientBuf + st.down.sent[st.down.taken..st.down.taken + n],
          down := st.down.(taken := st.down.taken + n))
    case ClientHandle => StepClientHandle(p, st)
    case ClientEof => Fail(st, HandshakeError)
    case ClientFault => Fail(st, HandshakeError).(faulty := true)
    case ServerSend => StepServerSend(p, st)
    case ServerRecv(n) =>
      st.(serverBuf := st.serverBuf + st.up.sent[st.up.taken..st.up.taken + n],
          up := st.up.(taken := st.up.taken + n))
    case ServerHandle => StepServerHandle(p, st)
    case ServerEof => FailServer(st)
    case ServerFault => FailServer(st)
    case ServerReturn => st.(server := Returned(Some(st.server.keys)))
    case ServerClose => st.(serverClosed := true)
    case Drop(up, down) =>
      st.(up := st.up.(cut := Some(up)), down := st.down.(cut := Some(down)), dropped := true, faulty := true)
  }

  /** The state after a schedule, or None when some action of it is not enabled. */
  function Execute(p: Setup, schedule: seq<Action>): Option<State>
    requires Ready(p)
  {
    if schedule == [] then Some(START)
    else
      var before := Execute(p, schedule[..|schedule| - 1]);
      var a := schedule[|schedule| - 1];
      if before.Some? && Enabled(p, before.value, a) then Some(Apply(p, before.value, a)) else None
  }

  // ---------------------------------------------------------------- the messages

  function HelloFrame(p: Setup): Wire
    requires Ready(p)
  {
    MessagesSendable(p.c, p.s, ClientKeys(p), []);
    if HelloMessage(p.c).Some? then Frame(HelloMessage(p.c).value) else []
  }

  function ClientKeys(p: Setup): SessionKeys {
    DeriveSessionKeys(p.c.public, p.s.public, p.s.salt)
  }

  function ServerKeys(p: Setup): SessionKeys {
    DeriveSessionKeys(p.s.public, p.c.public, p.s.salt)
  }

  function AckFrame(p: Setup): Wire
    requires Ready(p)
  {
    MessagesSendable(p.c, p.s, ClientKeys(p), []);
    Frame(AckMessage(p.c, ClientKeys(p)))
  }

  function RefusalFrame(p: Setup): Wire
    requires Ready(p)
  {
    MessagesSendable(p.c, p.s, ClientKeys(p), SKEW_TEXT);
    Frame(RefusalMessage(SKEW_TEXT))
  }

  function GreetingFrame(p: Setup): Wire
    requires Ready(p)
  {
    MessagesSendable(p.c, p.s, ClientKeys(p), []);
    Frame(ServerHelloMessage(p.s))
  }

  function PortFrame(p: Setup): Wire
    requires Ready(p)
  {
    MessagesSendable(p.c, p.s, ClientKeys(p), []);
    if PortMessage(p.s.port).Some? then Frame(PortMessage(p.s.port).value) else []
  }

  // ------------------------------------------------ what decides the handshake

  predicate ClockPacks(p: Setup) { 0 <= p.c.now < Pow256(8) }
  predicate ClocksAgree(p: Setup) { Distance(p.s.now, p.c.now) <= MAX_CLOCK_SKEW }
  predicate PortPacks(p: Setup) { 0 <= p.s.port < Pow256(2) }

  /** Everything the guards on both sides test, and distinct public keys. */
  predicate Compatible(p: Setup) {
    ClockPacks(p) && ClocksAgree(p) && Trusted(p.c, p.s.public) && p.c.public != p.s.public && PortPacks(p)
  }

  /** The end of a run without drops and timeouts: both results and both byte streams. */
  datatype Finish = Finish(outcome: Outcome, up: Wire, result: Option<SessionKeys>, down: Wire)

  /** The end the settings determine, guard by guard in the order the guards run. */
  function Expected(p: Setup): Finish
    requires Ready(p)
  {
    var h, a, g := HelloFrame(p), AckFrame(p), GreetingFrame(p);
    if !ClockPacks(p) then Finish(Failed(StructError), [], None, [])
    else if !ClocksAgree(p) then Finish(Failed(HandshakeError), h, None, RefusalFrame(p))
    else if !Trusted(p.c, p.s.public) then Finish(Failed(HandshakeError), h, None, g)
    else if p.c.public == p.s.public || !PortPacks(p) then Finish(Failed(HandshakeError), h + a, None, g)
    else Finish(Done(ClientKeys(p), p.s.port), h + a, Some(ServerKeys(p)), g + PortFrame(p))
  }

  /** How each honest message is received. */
  lemma HonestHello(p: Setup)
    requires Ready(p) && ClockPacks(p)
    ensures HelloMessage(p.c).Some?
    ensures OnClientHello(p.s, HelloMessage(p.c).value) ==
            if ClocksAgree(p) then Accept(ServerKeys(p)) else Refuse(SKEW_TEXT)
  {
    var h := ClientHello(PROTOCOL_VERSION, p.c.now, p.c.public);
    ClientHelloRoundTrip(h);
    ValuesPlain(SerializeClientHello(h).value);
  }

  lemma HonestGreeting(p: Setup)
    requires Ready(p)
    ensures OnServerHello(p.c, ServerHelloMessage(p.s)) ==
            if Trusted(p.c, p.s.public) then Ok(ClientKeys(p)) else Err(HandshakeError)
  {
    var h := ServerHello(p.s.public, p.s.salt);
    ServerHelloRoundTrip(h);
    ValuesPlain(SerializeServerHello(h));
  }

  lemma HonestAck(p: Setup)
    requires Ready(p)
    ensures AckAccepted(ServerKeys(p), AckMessage(p.c, ClientKeys(p))) <==> p.c.public != p.s.public
  {
    DirectionsMirror(p.c.public, p.s.public, p.s.salt, p.s.salt);
    DecryptEncrypt(ClientKeys(p).encryptKey, ServerKeys(p).decryptKey, p.c.nonce, CONFIRM, p.c.output);
    if p.c.public == p.s.public {
      EqualKeysCollide(p.c.public, p.s.salt);
    }
  }

  lemma HonestPort(p: Setup)
    requires Ready(p) && PortPacks(p)
    ensures PortMessage(p.s.port).Some? && OnFinal(PortMessage(p.s.port).value) == Ok(p.s.port)
  {
    LengthFits();
    var data := Pack(p.s.port, 2);
    assert Plain(data)[..2] == Plain(data);
    ValuesPlain(data);
    UnpackPack(p.s.port, 2);
  }

  lemma HonestRefusal(p: Setup)
    requires Ready(p)
    ensures OnServerHello(p.c, RefusalMessage(SKEW_TEXT)) == Err(HandshakeError)
    ensures OnFinal(RefusalMessage(SKEW_TEXT)) == Err(HandshakeError)
  {
  }

  // ------------------------------------------------------------- the invariant

  /** What the client has written, by where it stands. */
  predicate UpOk(p: Setup, client: ClientPc, sent: Wire)
    requires Ready(p)
  {
    var h, a := HelloFrame(p), AckFrame(p);
    match client
    case Connected => sent == []
    case AwaitHello => ClockPacks(p) && sent == h
    case Derived(_) => ClockPacks(p) && sent == h
    case AwaitFinal(_) => ClockPacks(p) && sent == h + a
    case Ended(Done(_, _)) => ClockPacks(p) && sent == h + a
    case Ended(Failed(_)) =>
      sent == [] || (ClockPacks(p) && (sent == h || (Trusted(p.c, p.s.public) && sent == h + a)))
  }

  /** What the server has written, by where it stands. */
  predicate DownOk(p: Setup, server: ServerPc, sent: Wire)
    requires Ready(p)
  {
    var g := GreetingFrame(p);
    match server
    case AwaitClient => sent == []
    case Refusing(text) => text == SKEW_TEXT && ClockPacks(p) && !ClocksAgree(p) && sent == []
    case Greeting(_) => sent == []
    case AwaitAck(_) => sent == g
    case Verified(_) => sent == g
    case PortSent(_) => PortPacks(p) && sent == g + PortFrame(p)
    case Returned(Some(_)) => PortPacks(p) && sent == g + PortFrame(p)
    case Returned(None) => sent == [] || sent == g || (!ClocksAgree(p) && sent == RefusalFrame(p))
  }

  /** The receive buffers hold exactly the bytes taken since the last whole message. */
  predicate ClientBufOk(p: Setup, client: ClientPc, buf: Wire, sent: Wire, taken: nat)
    requires Ready(p)
  {
    var g := GreetingFrame(p);
    taken <= |sent| &&
    match client
    case Connected => taken == 0 && buf == []
    case AwaitHello => |buf| <= |g| && buf == sent[..taken]
    case Derived(_) => buf == [] && taken == |g| && g <= sent
    case AwaitFinal(_) => taken >= |g| && g <= sent && buf == sent[|g|..taken]
    case Ended(_) => true
  }

  predicate ServerBufOk(p: Setup, server: ServerPc, buf: Wire, sent: Wire, taken: nat)
    requires Ready(p)
  {
    var h := HelloFrame(p);
    taken <= |sent| &&
    match server
    case AwaitClient => |buf| <= |h| && buf == sent[..taken]
    case AwaitAck(_) => taken >= |h| && h <= sent && buf == sent[|h|..taken]
    case Returned(_) => true
    case _ => buf == [] && taken >= |h| && h <= sent
  }

  /** The keys of a server that has sent its port, whether or not it has returned yet. */
  function Confirmed(server: ServerPc): Option<SessionKeys> {
    match server
    case PortSent(keys) => Some(keys)
    case Returned(result) => result
    case _ => None
  }

  /** What each program knows by the time it has passed its guards. */
  predicate ClientKnows(p: Setup, client: ClientPc, server: ServerPc) {
    match client
    case Derived(keys) => keys == ClientKeys(p) && Trusted(p.c, p.s.public)
    case AwaitFinal(keys) => keys == ClientKeys(p) && Trusted(p.c, p.s.public)
    case Ended(Done(keys, port)) =>
      keys == ClientKeys(p) && Trusted(p.c, p.s.public) && port == p.s.port && Confirmed(server) == Some(ServerKeys(p))
    case _ => true
  }

  predicate ServerAccepted(p: Setup, keys: SessionKeys) {
    keys == ServerKeys(p) && ClockPacks(p) && ClocksAgree(p)
  }

  predicate ServerKnows(p: Setup, server: ServerPc, sent: Wire, taken: nat)
    requires Ready(p)
  {
    match server
    case Greeting(keys) => ServerAccepted(p, keys) && taken == |HelloFrame(p)|
    case AwaitAck(keys) => ServerAccepted(p, keys)
    case Verified(keys) =>
      ServerAccepted(p, keys) && p.c.public != p.s.public && sent == HelloFrame(p) + AckFrame(p)
    case PortSent(keys) =>
      ServerAccepted(p, keys) && p.c.public != p.s.public && sent == HelloFrame(p) + AckFrame(p)
    case Returned(Some(keys)) =>
      ServerAccepted(p, keys) && p.c.public != p.s.public && sent == HelloFrame(p) + AckFrame(p)
    case _ => true
  }

  predicate FlagsOk(st: State) {
    && (st.dropped ==> st.faulty)
    && (!st.dropped ==> st.up.cut == None && st.down.cut == None)
    && (st.serverClosed ==> st.server == Returned(None))
  }

  /** A server the client may leave waiting: the client failed to pack its clock, or did
      not trust the greeting. */
  predicate LeftWaiting(p: Setup, server: ServerPc) {
    server.Returned? || server.PortSent? || (server.AwaitClient? && !ClockPacks(p)) || (server.AwaitAck? && !Trusted(p.c, p.s.public))
  }

  /** Without faults, whoever has ended has ended as expected. */
  predicate EndsOk(p: Setup, client: ClientPc, server: ServerPc, up: Wire, down: Wire)
    requires Ready(p)
  {
    && (client.Ended? ==> client.outcome == Expected(p).outcome && up == Expected(p).up && LeftWaiting(p, server))
    && (server.Returned? ==> server.result == Expected(p).result && down == Expected(p).down)
  }

  predicate Inv(p: Setup, st: State)
    requires Ready(p)
  {
    && st.up.Valid() && st.down.Valid()
    && UpOk(p, st.client, st.up.sent) && DownOk(p, st.server, st.down.sent)
    && ClientBufOk(p, st.client, st.clientBuf, st.down.sent, st.down.taken)
    && ServerBufOk(p, st.server, st.serverBuf, st.up.sent, st.up.taken)
    && ClientKnows(p, st.client, st.server) && ServerKnows(p, st.server, st.up.sent, st.up.taken)
    && FlagsOk(st) && (!st.faulty ==> EndsOk(p, st.client, st.server, st.up.sent, st.down.sent))
  }

  /** Inside a frame, a read never asks for bytes of the next one, and it is over
      exactly at the frame's end. */
  lemma WantedInFrame(m: Message, n: nat)
    requires Sendable(m) && n <= |Frame(m)|
    ensures Wanted(Frame(m)[..n]) == if n < HEADER_SIZE then HEADER_SIZE - n else |Frame(m)| - n
  {
    if n >= HEADER_SIZE {
      FrameHeader(m, []);
      assert Frame(m) + [] == Frame(m);
      assert Frame(m)[..n][1..HEADER_SIZE] == Frame(m)[1..HEADER_SIZE];
    }
  }

  /** A buffer that is a prefix of a frame and wants nothing more is that frame. */
  lemma CompleteBuffer(m: Message, buf: Wire)
    requires Sendable(m)
    requires buf <= Frame(m) && Wanted(buf) == 0
    ensures buf == Frame(m) && Read(buf, Closed) == Got(m, [])
  {
    assert buf == Frame(m)[..|buf|];
    WantedInFrame(m, |buf|);
    ReadFrame(m, [], Closed);
    assert Frame(m) + [] == Frame(m);
  }

  /** Writing more at the sender's end changes nothing at the receiver's. */
  lemma WriteKeepsServerBuf(p: Setup, server: ServerPc, buf: Wire, sent: Wire, taken: nat, w: Wire)
    requires Ready(p) && ServerBufOk(p, server, buf, sent, taken)
    ensures ServerBufOk(p, server, buf, sent + w, taken)
  {
    assert (sent + w)[..taken] == sent[..taken];
    var h := |HelloFrame(p)|;
    if h <= taken {
      assert (sent + w)[h..taken] == sent[h..taken];
    }
  }

  lemma WriteKeepsClientBuf(p: Setup, client: ClientPc, buf: Wire, sent: Wire, taken: nat, w: Wire)
    requires Ready(p) && ClientBufOk(p, client, buf, sent, taken)
    ensures ClientBufOk(p, client, buf, sent + w, taken)
  {
    assert (sent + w)[..taken] == sent[..taken];
    var g := |GreetingFrame(p)|;
    if g <= taken {
      assert (sent + w)[g..taken] == sent[g..taken];
    }
  }

  lemma InvSendHello(p: Setup, st: State)
    requires Ready(p) && Inv(p, st) && st.client.Connected?
    ensures Inv(p, StepClientSend(p, st))
  {
    MessagesSendable(p.c, p.s, ClientKeys(p), []);
    if HelloMessage(p.c).None? {
      assert !ClockPacks(p);
    } else {
      var w := HelloFrame(p);
      WriteKeepsServerBuf(p, st.server, st.serverBuf, st.up.sent, st.up.taken, w);
      assert [] + w == w;
      assert StepClientSend(p, st) == st.(client := AwaitHello, up := st.up.Write(w));
      assert ServerKnows(p, st.server, w, st.up.taken);
    }
  }

  lemma InvSendAck(p: Setup, st: State)
    requires Ready(p) && Inv(p, st) && st.client.Derived?
    ensures Inv(p, StepClientSend(p, st))
  {
    var w := AckFrame(p);
    WriteKeepsServerBuf(p, st.server, st.serverBuf, st.up.sent, st.up.taken, w);
    assert StepClientSend(p, st) == st.(client := AwaitFinal(ClientKeys(p)), up := st.up.Write(w));
    assert ServerKnows(p, st.server, st.up.sent + w, st.up.taken);
  }

  /** A server that is about to write has not left a client that ended without faults. */
  lemma NobodyLeft(p: Setup, st: State)
    requires Ready(p) && Inv(p, st) && (st.server.Refusing? || st.server.Greeting? || st.server.Verified?)
    ensures st.client.Ended? ==> st.faulty && st.client.outcome.Failed?
  {
  }

  lemma InvServerWrites(p: Setup, st: State, server: ServerPc, w: Wire)
    requires Ready(p) && Inv(p, st)
    requires st.server.Refusing? || st.server.Greeting? || st.server.Verified?
    requires DownOk(p, server, st.down.sent + w) && ServerKnows(p, server, st.up.sent, st.up.taken)
    requires ServerBufOk(p, server, st.serverBuf, st.up.sent, st.up.taken)
    requires server.Returned? && !st.faulty ==> server.result == Expected(p).result && st.down.sent + w == Expected(p).down
    ensures Inv(p, st.(server := server, down := st.down.Write(w)))
  {
    NobodyLeft(p, st);
    WriteKeepsClientBuf(p, st.client, st.clientBuf, st.down.sent, st.down.taken, w);
    assert ClientKnows(p, st.client, server);
  }

  lemma InvRefuses(p: Setup, st: State)
    requires Ready(p) && Inv(p, st) && st.server.Refusing?
    ensures Inv(p, StepServerSend(p, st))
  {
    var w := RefusalFrame(p);
    assert [] + w == w;
    InvServerWrites(p, st, Returned(None), w);
    assert ServerSends(p, st.server) == (Returned(None), w);
  }

  lemma InvGreets(p: Setup, st: State)
    requires Ready(p) && Inv(p, st) && st.server.Greeting?
    ensures Inv(p, StepServerSend(p, st))
  {
    var w := GreetingFrame(p);
    assert [] + w == w;
    assert st.up.sent[|HelloFrame(p)|..st.up.taken] == [];
    InvServerWrites(p, st, AwaitAck(st.server.keys), w);
    assert ServerSends(p, st.server) == (AwaitAck(st.server.keys), w);
  }

  lemma InvSendsPort(p: Setup, st: State)
    requires Ready(p) && Inv(p, st) && st.server.Verified?
    ensures Inv(p, StepServerSend(p, st))
  {
    var w := PortFrame(p);
    var next := if PortPacks(p) then PortSent(st.server.keys) else Returned(None);
    assert st.down.sent + [] == st.down.sent;
    if !st.faulty {
      ConfirmedIsExpected(p, st);
    }
    InvServerWrites(p, st, next, w);
    assert ServerSends(p, st.server) == (next, w);
  }

  /** A server that accepted the confirmation ends as expected. */
  lemma ConfirmedIsExpected(p: Setup, st: State)
    requires Ready(p) && Inv(p, st) && (st.server.Verified? || st.server.PortSent?) && !st.faulty
    ensures Expected(p).result == (if PortPacks(p) then Some(st.server.keys) else None)
    ensures Expected(p).down == if st.server.PortSent? then st.down.sent else st.down.sent + PortFrame(p)
  {
    MessagesSendable(p.c, p.s, ClientKeys(p), []);
    assert st.down.sent + [] == st.down.sent;
  }

  lemma InvServerReturns(p: Setup, st: State)
    requires Ready(p) && Inv(p, st) && st.server.PortSent?
    ensures Inv(p, st.(server := Returned(Some(st.server.keys))))
  {
    if !st.faulty {
      ConfirmedIsExpected(p, st);
    }
  }

  lemma InvServerSend(p: Setup, st: State)
    requires Ready(p) && Inv(p, st) && Enabled(p, st, ServerSend)
    ensures Inv(p, StepServerSend(p, st))
  {
    if st.server.Refusing? {
      InvRefuses(p, st);
    } else if st.server.Greeting? {
      InvGreets(p, st);
    } else {
      InvSendsPort(p, st);
    }
  }

  lemma InvClientFails(p: Setup, st: State, e: ClientError, buf: Wire, faulty: bool)
    requires Ready(p) && Inv(p, st) && !st.client.Ended?
    requires st.faulty || faulty || EndsOk(p, Ended(Failed(e)), st.server, st.up.sent, st.down.sent)
    ensures Inv(p, Fail(st, e).(clientBuf := buf, faulty := faulty || st.faulty))
  {
  }

  lemma InvDerived(p: Setup, st: State)
    requires Ready(p) && Inv(p, st) && st.client.AwaitHello?
    requires st.clientBuf == GreetingFrame(p) && Trusted(p.c, p.s.public)
    ensures Inv(p, st.(clientBuf := [], client := Derived(ClientKeys(p))))
  {
  }

  /** The first message the client completes is the greeting, or the refusal of an
      incompatible hello. */
  lemma FirstAnswer(p: Setup, st: State)
    requires Ready(p) && Inv(p, st) && st.client.AwaitHello? && Wanted(st.clientBuf) == 0
    ensures (st.clientBuf == GreetingFrame(p) && Read(st.clientBuf, Closed) == Got(ServerHelloMessage(p.s), [])) ||
            (!ClocksAgree(p) && Read(st.clientBuf, Closed) == Got(RefusalMessage(SKEW_TEXT), []))
  {
    MessagesSendable(p.c, p.s, ClientKeys(p), SKEW_TEXT);
    if st.down.sent == GreetingFrame(p) {
      CompleteBuffer(ServerHelloMessage(p.s), st.clientBuf);
    } else if st.down.sent != [] {
      CompleteBuffer(RefusalMessage(SKEW_TEXT), st.clientBuf);
    }
  }

  lemma ReadWhole(m: Message, tail: Wire, ending: Ending)
    requires Sendable(m)
    ensures Read(Frame(m) + tail, ending) == Got(m, tail)
    ensures Read(Frame(m), ending) == Got(m, [])
  {
    ReadFrame(m, tail, ending);
    ReadFrame(m, [], ending);
    assert Frame(m) + [] == Frame(m);
  }

  lemma AnswerDecides(p: Setup, st: State)
    requires Ready(p) && Inv(p, st) && st.client.AwaitHello? && Wanted(st.clientBuf) == 0
    ensures ClientAfter(p, st.client, st.clientBuf) ==
            if st.clientBuf == GreetingFrame(p) && Trusted(p.c, p.s.public) then Derived(ClientKeys(p))
            else Ended(Failed(HandshakeError))
    ensures !Trusted(p.c, p.s.public) || st.clientBuf == GreetingFrame(p) || !ClocksAgree(p)
  {
    FirstAnswer(p, st);
    HonestGreeting(p);
    HonestRefusal(p);
    GreetingIsNoRefusal(p);
  }

  lemma GreetingIsNoRefusal(p: Setup)
    requires Ready(p)
    ensures Read(GreetingFrame(p), Closed) == Got(ServerHelloMessage(p.s), [])
  {
    MessagesSendable(p.c, p.s, ClientKeys(p), []);
    ReadWhole(ServerHelloMessage(p.s), [], Closed);
  }

  /** A client the greeting or the refusal turned down ends as expected. */
  lemma TurnedDown(p: Setup, st: State)
    requires Ready(p) && Inv(p, st) && !st.faulty && st.client.AwaitHello? && Wanted(st.clientBuf) == 0
    requires st.clientBuf != GreetingFrame(p) || !Trusted(p.c, p.s.public)
    ensures EndsOk(p, Ended(Failed(HandshakeError)), st.server, st.up.sent, st.down.sent)
  {
    FirstAnswer(p, st);
    MessagesSendable(p.c, p.s, ClientKeys(p), SKEW_TEXT);
  }

  lemma InvHandleGreeting(p: Setup, st: State)
    requires Ready(p) && Inv(p, st) && st.client.AwaitHello? && Wanted(st.clientBuf) == 0
    ensures Inv(p, StepClientHandle(p, st))
  {
    AnswerDecides(p, st);
    if st.clientBuf == GreetingFrame(p) && Trusted(p.c, p.s.public) {
      InvDerived(p, st);
    } else {
      if !st.faulty {
        TurnedDown(p, st);
      }
      InvClientFails(p, st, HandshakeError, [], st.faulty);
    }
  }

  lemma InvHandleFinal(p: Setup, st: State)
    requires Ready(p) && Inv(p, st) && st.client.AwaitFinal? && Wanted(st.clientBuf) == 0
    ensures Inv(p, StepClientHandle(p, st))
  {
    MessagesSendable(p.c, p.s, ClientKeys(p), SKEW_TEXT);
    var g := GreetingFrame(p);
    assert st.clientBuf <= st.down.sent[|g|..];
    if Confirmed(st.server).Some? {
      assert st.down.sent[|g|..] == PortFrame(p);
      CompleteBuffer(PortMessage(p.s.port).value, st.clientBuf);
      HonestPort(p);
      var after := StepClientHandle(p, st);
      assert after == st.(clientBuf := [], client := Ended(Done(ClientKeys(p), p.s.port)));
    }
  }

  lemma InvHandleHello(p: Setup, st: State)
    requires Ready(p) && Inv(p, st) && st.server.AwaitClient? && Wanted(st.serverBuf) == 0
    ensures Inv(p, StepServerHandle(p, st))
  {
    MessagesSendable(p.c, p.s, ClientKeys(p), SKEW_TEXT);
    assert st.up.sent != [];
    CompleteBuffer(HelloMessage(p.c).value, st.serverBuf);
    HonestHello(p);
    var after := StepServerHandle(p, st);
    assert after == st.(serverBuf := [],
                        server := if ClocksAgree(p) then Greeting(ServerKeys(p)) else Refusing(SKEW_TEXT));
  }

  lemma InvHandleAck(p: Setup, st: State)
    requires Ready(p) && Inv(p, st) && st.server.AwaitAck? && Wanted(st.serverBuf) == 0
    ensures Inv(p, StepServerHandle(p, st))
  {
    MessagesSendable(p.c, p.s, ClientKeys(p), SKEW_TEXT);
    var h := HelloFrame(p);
    assert st.serverBuf <= st.up.sent[|h|..];
    if st.up.sent == h + AckFrame(p) {
      assert st.up.sent[|h|..] == AckFrame(p);
      CompleteBuffer(AckMessage(p.c, ClientKeys(p)), st.serverBuf);
      HonestAck(p);
      var after := StepServerHandle(p, st);
      assert after == st.(serverBuf := [],
                          server := if p.c.public != p.s.public then Verified(ServerKeys(p)) else Returned(None));
    }
  }

  /** Before the client has answered, the server has written one message at most. */
  lemma OneAnswer(p: Setup, st: State)
    requires Ready(p) && Inv(p, st) && st.client.AwaitHello?
    ensures |st.down.sent| <= |GreetingFrame(p)|
  {
    MessagesSendable(p.c, p.s, ClientKeys(p), SKEW_TEXT);
    assert Confirmed(st.server).None?;
  }

  lemma TakeMore(sent: Wire, first: nat, taken: nat, n: nat)
    requires first <= taken && taken + n <= |sent|
    ensures sent[first..taken] + sent[taken..taken + n] == sent[first..taken + n]
  {
  }

  /** The client's state after taking `n` bytes. */
  function ClientTook(st: State, n: nat): State
    requires st.down.taken + n <= |st.down.sent|
  {
    st.(clientBuf := st.clientBuf + st.down.sent[st.down.taken..st.down.taken + n],
        down := st.down.(taken := st.down.taken + n))
  }

  predicate ClientHolds(p: Setup, st: State)
    requires Ready(p)
  {
    st.down.Valid() && ClientBufOk(p, st.client, st.clientBuf, st.down.sent, st.down.taken)
  }

  lemma ClientRecvStep(p: Setup, st: State, n: nat)
    requires Ready(p) && Enabled(p, st, ClientRecv(n))
    ensures ClientWaits(st) && st.down.Valid() && st.down.taken + n <= st.down.Limit() <= |st.down.sent|
    ensures Apply(p, st, ClientRecv(n)) == ClientTook(st, n)
  {
  }

  lemma AnswerAdvances(p: Setup, st: State, n: nat)
    requires Ready(p) && ClientHolds(p, st) && st.client.AwaitHello? && |st.down.sent| <= |GreetingFrame(p)|
    requires st.down.taken + n <= st.down.Limit()
    ensures ClientHolds(p, ClientTook(st, n))
  {
    TakeMore(st.down.sent, 0, st.down.taken, n);
  }

  lemma FinalAdvances(p: Setup, st: State, n: nat)
    requires Ready(p) && ClientHolds(p, st) && st.client.AwaitFinal? && st.down.taken + n <= st.down.Limit()
    ensures ClientHolds(p, ClientTook(st, n))
  {
    TakeMore(st.down.sent, |GreetingFrame(p)|, st.down.taken, n);
  }

  lemma InvClientTakes(p: Setup, st: State, after: State)
    requires Ready(p) && Inv(p, st) && ClientWaits(st) && ClientHolds(p, after)
    requires after == st.(clientBuf := after.clientBuf, down := st.down.(taken := after.down.taken))
    ensures Inv(p, after)
  {
  }

  lemma InvClientAdvances(p: Setup, st: State, n: nat)
    requires Ready(p) && Inv(p, st) && ClientWaits(st) && st.down.taken + n <= st.down.Limit()
    ensures Inv(p, ClientTook(st, n))
  {
    assert ClientHolds(p, st);
    if st.client.AwaitHello? {
      OneAnswer(p, st);
      AnswerAdvances(p, st, n);
    } else {
      FinalAdvances(p, st, n);
    }
    InvClientTakes(p, st, ClientTook(st, n));
  }

  lemma InvClientRecv(p: Setup, st: State, n: nat)
    requires Ready(p) && Inv(p, st) && Enabled(p, st, ClientRecv(n))
    ensures Inv(p, Apply(p, st, ClientRecv(n)))
  {
    ClientRecvStep(p, st, n);
    InvClientAdvances(p, st, n);
  }

  // The same at the server's end, where a read must not run past the hello.

  predicate ServerHolds(p: Setup, st: State)
    requires Ready(p)
  {
    st.up.Valid() && UpOk(p, st.client, st.up.sent) && ServerBufOk(p, st.server, st.serverBuf, st.up.sent, st.up.taken)
  }

  /** What has been written starts with the hello. */
  lemma HelloFirst(p: Setup, st: State)
    requires Ready(p) && ServerHolds(p, st) && st.server.AwaitClient? && st.up.sent != []
    ensures HelloMessage(p.c).Some? && st.serverBuf <= HelloFrame(p)
  {
    MessagesSendable(p.c, p.s, ClientKeys(p), []);
  }

  /** The server's first read stays inside the client's hello. */
  lemma WithinHello(p: Setup, buf: Wire, n: nat)
    requires Ready(p) && HelloMessage(p.c).Some? && buf <= HelloFrame(p) && n <= Wanted(buf)
    ensures |buf| + n <= |HelloFrame(p)|
  {
    MessagesSendable(p.c, p.s, ClientKeys(p), []);
    assert buf == Frame(HelloMessage(p.c).value)[..|buf|];
    WantedInFrame(HelloMessage(p.c).value, |buf|);
  }

  lemma InvServerTakes(p: Setup, st: State, after: State)
    requires Ready(p) && Inv(p, st) && ServerWaits(st) && ServerHolds(p, after)
    requires after == st.(serverBuf := after.serverBuf, up := st.up.(taken := after.up.taken))
    ensures Inv(p, after)
  {
  }

  /** The server's state after taking `n` bytes. */
  function ServerTook(st: State, n: nat): State
    requires st.up.taken + n <= |st.up.sent|
  {
    st.(serverBuf := st.serverBuf + st.up.sent[st.up.taken..st.up.taken + n], up := st.up.(taken := st.up.taken + n))
  }

  lemma ServerRecvStep(p: Setup, st: State, n: nat)
    requires Ready(p) && Enabled(p, st, ServerRecv(n))
    ensures ServerWaits(st) && 0 < n <= Wanted(st.serverBuf) && st.up.Valid()
    ensures st.up.taken + n <= st.up.Limit() <= |st.up.sent|
    ensures Apply(p, st, ServerRecv(n)) == ServerTook(st, n)
  {
  }

  lemma HelloAdvances(p: Setup, st: State, n: nat)
    requires Ready(p) && ServerHolds(p, st) && st.server.AwaitClient?
    requires 0 < n <= Wanted(st.serverBuf) && st.up.taken + n <= st.up.Limit()
    ensures ServerHolds(p, ServerTook(st, n))
  {
    HelloFirst(p, st);
    WithinHello(p, st.serverBuf, n);
    TakeMore(st.up.sent, 0, st.up.taken, n);
  }

  lemma AckAdvances(p: Setup, st: State, n: nat)
    requires Ready(p) && ServerHolds(p, st) && st.server.AwaitAck? && st.up.taken + n <= st.up.Limit()
    ensures ServerHolds(p, ServerTook(st, n))
  {
    TakeMore(st.up.sent, |HelloFrame(p)|, st.up.taken, n);
  }

  lemma ServerAdvances(p: Setup, st: State, n: nat)
    requires Ready(p) && ServerHolds(p, st) && ServerWaits(st)
    requires 0 < n <= Wanted(st.serverBuf) && st.up.taken + n <= st.up.Limit()
    ensures ServerHolds(p, ServerTook(st, n))
  {
    if st.server.AwaitClient? {
      HelloAdvances(p, st, n);
    } else {
      AckAdvances(p, st, n);
    }
  }

  lemma InvServerAdvances(p: Setup, st: State, n: nat)
    requires Ready(p) && Inv(p, st) && ServerWaits(st)
    requires 0 < n <= Wanted(st.serverBuf) && st.up.taken + n <= st.up.Limit()
    ensures Inv(p, ServerTook(st, n))
  {
    assert ServerHolds(p, st);
    ServerAdvances(p, st, n);
    InvServerTakes(p, st, ServerTook(st, n));
  }

  lemma InvServerRecv(p: Setup, st: State, n: nat)
    requires Ready(p) && Inv(p, st) && Enabled(p, st, ServerRecv(n))
    ensures Inv(p, Apply(p, st, ServerRecv(n)))
  {
    ServerRecvStep(p, st, n);
    InvServerAdvances(p, st, n);
  }

  lemma WantedWhole(m: Message)
    requires Sendable(m)
    ensures Wanted(Frame(m)) == 0
  {
    assert Frame(m)[..|Frame(m)|] == Frame(m);
    WantedInFrame(m, |Frame(m)|);
  }

  /** A client that has taken all there is, and there is something, has its first answer. */
  lemma AnswerInHand(p: Setup, st: State)
    requires Ready(p) && Inv(p, st) && st.client.AwaitHello? && st.down.sent != []
    requires st.down.taken == |st.down.sent|
    ensures Wanted(st.clientBuf) == 0
  {
    MessagesSendable(p.c, p.s, ClientKeys(p), SKEW_TEXT);
    OneAnswer(p, st);
    assert st.clientBuf == st.down.sent;
    if st.down.sent == GreetingFrame(p) {
      WantedWhole(ServerHelloMessage(p.s));
    } else {
      WantedWhole(RefusalMessage(SKEW_TEXT));
    }
  }

  lemma AnswerSent(p: Setup, st: State)
    requires Ready(p) && Inv(p, st) && !st.faulty && st.client.AwaitHello? && st.server.Returned?
    ensures st.down.sent != []
  {
    MessagesSendable(p.c, p.s, ClientKeys(p), SKEW_TEXT);
  }

  /** An end of file never reaches a client that waits for the first answer, as long as
      nothing is dropped. */
  lemma AnswerComes(p: Setup, st: State)
    requires Ready(p) && Inv(p, st) && Enabled(p, st, ClientEof) && !st.faulty
    ensures !st.client.AwaitHello?
  {
    if st.client.AwaitHello? {
      AnswerSent(p, st);
      AnswerInHand(p, st);
    }
  }

  /** It can only reach a client the server has turned down. */
  lemma EofTurnsDown(p: Setup, st: State)
    requires Ready(p) && Inv(p, st) && Enabled(p, st, ClientEof) && !st.faulty
    ensures EndsOk(p, Ended(Failed(HandshakeError)), st.server, st.up.sent, st.down.sent)
  {
    AnswerComes(p, st);
  }

  lemma InvClientEof(p: Setup, st: State)
    requires Ready(p) && Inv(p, st) && Enabled(p, st, ClientEof)
    ensures Inv(p, Fail(st, HandshakeError))
  {
    if !st.faulty {
      EofTurnsDown(p, st);
    }
    InvClientFails(p, st, HandshakeError, st.clientBuf, st.faulty);
  }

  lemma InvServerFails(p: Setup, st: State)
    requires Ready(p) && Inv(p, st) && !st.server.Returned? && !st.server.PortSent?
    requires st.dropped || ClientClosed(st)
    ensures Inv(p, FailServer(st))
  {
  }

  lemma InvServerCloses(p: Setup, st: State)
    requires Ready(p) && Inv(p, st) && st.server == Returned(None)
    ensures Inv(p, st.(serverClosed := true))
  {
  }

  lemma InvDrop(p: Setup, st: State, a: Action)
    requires Ready(p) && Inv(p, st) && Enabled(p, st, a) && a.Drop?
    ensures Inv(p, Apply(p, st, a))
  {
  }

  lemma ClientStepKeepsInv(p: Setup, st: State, a: Action)
    requires Ready(p) && Inv(p, st) && Enabled(p, st, a)
    requires a.ClientSend? || a.ClientHandle? || a.ClientEof? || a.ClientFault?
    ensures Inv(p, Apply(p, st, a))
  {
    match a {
      case ClientSend => if st.client.Connected? { InvSendHello(p, st); } else { InvSendAck(p, st); }
      case ClientHandle => if st.client.AwaitHello? { InvHandleGreeting(p, st); } else { InvHandleFinal(p, st); }
      case ClientEof => InvClientEof(p, st);
      case ClientFault => InvClientFails(p, st, HandshakeError, st.clientBuf, true);
    }
  }

  lemma InvServerHandle(p: Setup, st: State)
    requires Ready(p) && Inv(p, st) && ServerWaits(st) && Wanted(st.serverBuf) == 0
    ensures Inv(p, StepServerHandle(p, st))
  {
    if st.server.AwaitClient? {
      InvHandleHello(p, st);
    } else {
      InvHandleAck(p, st);
    }
  }

  lemma ServerStepKeepsInv(p: Setup, st: State, a: Action)
    requires Ready(p) && Inv(p, st) && Enabled(p, st, a) && (a.ServerSend? || a.ServerHandle? || a.ServerReturn?)
    ensures Inv(p, Apply(p, st, a))
  {
    match a {
      case ServerSend => InvServerSend(p, st);
      case ServerHandle => InvServerHandle(p, st);
      case ServerReturn => InvServerReturns(p, st);
    }
  }

  lemma ServerStopKeepsInv(p: Setup, st: State, a: Action)
    requires Ready(p) && Inv(p, st) && Enabled(p, st, a) && (a.ServerEof? || a.ServerFault? || a.ServerClose?)
    ensures Inv(p, Apply(p, st, a))
  {
    match a {
      case ServerEof => InvServerFails(p, st);
      case ServerFault => InvServerFails(p, st);
      case ServerClose => InvServerCloses(p, st);
    }
  }

  lemma NetworkStepKeepsInv(p: Setup, st: State, a: Action)
    requires Ready(p) && Inv(p, st) && Enabled(p, st, a) && (a.ClientRecv? || a.ServerRecv? || a.Drop?)
    ensures Inv(p, Apply(p, st, a))
  {
    if a.ClientRecv? {
      InvClientRecv(p, st, a.n);
    } else if a.ServerRecv? {
      InvServerRecv(p, st, a.n);
    } else {
      InvDrop(p, st, a);
    }
  }

  /** Every step of either program or of the network keeps the invariant. */
  lemma {:induction false} StepKeepsInv(p: Setup, st: State, a: Action)
    requires Ready(p) && Inv(p, st) && Enabled(p, st, a)
    ensures Inv(p, Apply(p, st, a))
  {
    if a.ClientRecv? || a.ServerRecv? || a.Drop? {
      NetworkStepKeepsInv(p, st, a);
    } else if a.ClientSend? || a.ClientHandle? || a.ClientEof? || a.ClientFault? {
      ClientStepKeepsInv(p, st, a);
    } else if a.ServerEof? || a.ServerFault? || a.ServerClose? {
      ServerStopKeepsInv(p, st, a);
    } else {
      ServerStepKeepsInv(p, st, a);
    }
  }

  // -------------------------------------------------------------- main results

  lemma {:induction false} ReachableInv(p: Setup, schedule: seq<Action>)
    requires Ready(p) && Execute(p, schedule).Some?
    ensures Inv(p, Execute(p, schedule).value)
  {
    if schedule == [] {
    } else {
      var before := schedule[..|schedule| - 1];
      ReachableInv(p, before);
      StepKeepsInv(p, Execute(p, before).value, schedule[|schedule| - 1]);
    }
  }

  /** A client with a result: what its server has done. */
  predicate ClientAgrees(p: Setup, st: State) {
    st.client.Ended? && st.client.outcome.Done? ==>
      Confirmed(st.server).Some? && Mirror(st.client.outcome.keys, Confirmed(st.server).value) &&
      st.client.outcome.port == p.s.port && Compatible(p)
  }

  /** A server that got to the port: what it was sent, and that every guard held, the
      client's too. */
  predicate ServerAgrees(p: Setup, st: State)
    requires Ready(p)
  {
    Confirmed(st.server).Some? ==>
      st.up.sent == HelloFrame(p) + AckFrame(p) &&
      AckAccepted(Confirmed(st.server).value, AckMessage(p.c, ClientKeys(p))) && Compatible(p)
  }

  lemma InvClientAgrees(p: Setup, st: State)
    requires Ready(p) && Inv(p, st)
    ensures ClientAgrees(p, st)
  {
    DirectionsMirror(p.c.public, p.s.public, p.s.salt, p.s.salt);
  }

  lemma InvServerAgrees(p: Setup, st: State)
    requires Ready(p) && Inv(p, st)
    ensures ServerAgrees(p, st)
  {
    HonestAck(p);
    assert HelloFrame(p) + AckFrame(p) != HelloFrame(p) by {
      assert |AckFrame(p)| > 0;
    }
  }

  /** Agreement, on every schedule, with drops and timeouts: a client that returned a
      result has a server that accepted its confirmation, holds the mirrored keys, sent
      the port it was given and has at most its return left, and every guard held; and
      a server that got that far was sent a confirmation that opens under its keys, and
      every guard held. */
  lemma {:induction false} Agreement(p: Setup, schedule: seq<Action>)
    requires Ready(p) && Execute(p, schedule).Some?
    ensures ClientAgrees(p, Execute(p, schedule).value) && ServerAgrees(p, Execute(p, schedule).value)
  {
    ReachableInv(p, schedule);
    InvClientAgrees(p, Execute(p, schedule).value);
    InvServerAgrees(p, Execute(p, schedule).value);
  }

  predicate BothEnded(st: State) { st.client.Ended? && st.server.Returned? }

  lemma ExpectedSuccess(p: Setup)
    requires Ready(p)
    ensures Expected(p).outcome.Done? <==> Compatible(p)
    ensures Expected(p).result.Some? <==> Compatible(p)
  {
  }

  /** Without drops and timeouts the end does not depend on the schedule: both results
      and every byte written are the ones the settings determine, and either side
      succeeds exactly when the settings are compatible. */
  lemma {:induction false} OutcomeDetermined(p: Setup, schedule: seq<Action>)
    requires Ready(p) && Execute(p, schedule).Some?
    requires !Execute(p, schedule).value.faulty && BothEnded(Execute(p, schedule).value)
    ensures var st := Execute(p, schedule).value;
            Finish(st.client.outcome, st.up.sent, st.server.result, st.down.sent) == Expected(p) &&
            (st.client.outcome.Done? <==> Compatible(p)) && (st.server.result.Some? <==> Compatible(p))
  {
    ReachableInv(p, schedule);
    ExpectedSuccess(p);
  }

  /** The concurrent system computes what the two sequential programs compute when each
      is given the other's bytes and then an end of file. */
  lemma ClientProgramAgrees(p: Setup)
    requires Ready(p)
    ensures var run := RunClient(p.c, Expected(p).down, Closed);
            run.outcome == Expected(p).outcome && run.sent == Expected(p).up
  {
    MessagesSendable(p.c, p.s, ClientKeys(p), SKEW_TEXT);
    if !ClockPacks(p) {
      assert HelloMessage(p.c).None?;
    } else if !ClocksAgree(p) {
      HonestHello(p);
      ReadWhole(RefusalMessage(SKEW_TEXT), [], Closed);
      HonestRefusal(p);
    } else {
      HonestHello(p);
      ClientHearsGreeting(p, []);
      ClientHearsGreeting(p, PortFrame(p));
      ClientFinishes(p);
    }
  }

  lemma ClientHearsGreeting(p: Setup, rest: Wire)
    requires Ready(p)
    ensures Trusted(p.c, p.s.public) ==> HearHello(p.c, GreetingFrame(p) + rest, Closed) == (Ok(ClientKeys(p)), rest)
    ensures !Trusted(p.c, p.s.public) ==> HearHello(p.c, GreetingFrame(p) + rest, Closed).0 == Err(HandshakeError)
    ensures GreetingFrame(p) + [] == GreetingFrame(p)
  {
    MessagesSendable(p.c, p.s, ClientKeys(p), []);
    HonestGreeting(p);
    ReadWhole(ServerHelloMessage(p.s), rest, Closed);
  }

  lemma ClientFinishes(p: Setup)
    requires Ready(p)
    ensures FinishClient(p.c, ClientKeys(p), HelloFrame(p), [], Closed).outcome == Failed(HandshakeError)
    ensures PortPacks(p) ==>
              FinishClient(p.c, ClientKeys(p), HelloFrame(p), PortFrame(p), Closed).outcome == Done(ClientKeys(p), p.s.port)
  {
    MessagesSendable(p.c, p.s, ClientKeys(p), []);
    if PortPacks(p) {
      HonestPort(p);
      ReadWhole(PortMessage(p.s.port).value, [], Closed);
    }
  }

  lemma ServerReadsHello(p: Setup, rest: Wire)
    requires Ready(p) && ClockPacks(p)
    ensures Read(HelloFrame(p) + rest, Closed) == Got(HelloMessage(p.c).value, rest)
    ensures Read(HelloFrame(p), Closed) == Got(HelloMessage(p.c).value, [])
  {
    MessagesSendable(p.c, p.s, ClientKeys(p), []);
    HonestHello(p);
    ReadWhole(HelloMessage(p.c).value, rest, Closed);
  }

  lemma ServerReadsAck(p: Setup)
    requires Ready(p)
    ensures Read(AckFrame(p), Closed) == Got(AckMessage(p.c, ClientKeys(p)), [])
  {
    MessagesSendable(p.c, p.s, ClientKeys(p), []);
    ReadWhole(AckMessage(p.c, ClientKeys(p)), [], Closed);
  }

  lemma ServerConfirms(p: Setup)
    requires Ready(p)
    ensures FinishServer(p.s, ServerKeys(p), [], Closed) == ServerRun(None, [])
    ensures FinishServer(p.s, ServerKeys(p), AckFrame(p), Closed) ==
            if p.c.public != p.s.public && PortPacks(p) then ServerRun(Some(ServerKeys(p)), PortFrame(p))
            else ServerRun(None, [])
  {
    HonestAck(p);
    ServerReadsAck(p);
  }

  lemma ServerGreets(p: Setup, rest: Wire)
    requires Ready(p) && ClockPacks(p) && ClocksAgree(p)
    ensures RunServer(p.s, HelloFrame(p) + rest, Closed) == GreetClient(p.s, ServerKeys(p), rest, Closed)
  {
    HonestHello(p);
    ServerReadsHello(p, rest);
  }

  lemma ServerReadsBoth(p: Setup)
    requires Ready(p) && ClockPacks(p) && ClocksAgree(p)
    ensures RunServer(p.s, HelloFrame(p), Closed) == ServerRun(None, GreetingFrame(p))
    ensures RunServer(p.s, HelloFrame(p) + AckFrame(p), Closed) ==
            if p.c.public != p.s.public && PortPacks(p)
            then ServerRun(Some(ServerKeys(p)), GreetingFrame(p) + PortFrame(p))
            else ServerRun(None, GreetingFrame(p))
  {
    ServerConfirms(p);
    ServerGreets(p, []);
    ServerGreets(p, AckFrame(p));
    assert HelloFrame(p) + [] == HelloFrame(p);
    assert GreetingFrame(p) + [] == GreetingFrame(p);
  }

  lemma ServerProgramAgrees(p: Setup)
    requires Ready(p)
    ensures RunServer(p.s, Expected(p).up, Closed) == ServerRun(Expected(p).result, Expected(p).down)
  {
    if ClockPacks(p) {
      if ClocksAgree(p) {
        ServerReadsBoth(p);
      } else {
        HonestHello(p);
        ServerReadsHello(p, []);
      }
    }
  }

  // ------------------------------------------------------------------ progress

  /** Both programs are over and a rejecting server has closed the socket. */
  predicate Finished(st: State) {
    BothEnded(st) && (st.server.result == None ==> st.serverClosed)
  }

  /** A step that is not a fault, for every state that is not finished. */
  function Next(st: State): Action
    requires st.up.Valid() && st.down.Valid()
  {
    if st.client.Connected? || st.client.Derived? then ClientSend
    else if st.server.Refusing? || st.server.Greeting? || st.server.Verified? then ServerSend
    else if st.server.PortSent? then ServerReturn
    else if st.server == Returned(None) && !st.serverClosed then ServerClose
    else if ClientWaits(st) && Wanted(st.clientBuf) == 0 then ClientHandle
    else if ServerWaits(st) && Wanted(st.serverBuf) == 0 then ServerHandle
    else if ClientWaits(st) && st.down.Available() > 0 then ClientRecv(1)
    else if ServerWaits(st) && st.up.Available() > 0 then ServerRecv(1)
    else if ClientWaits(st) && (st.serverClosed || st.dropped) then ClientEof
    else ServerEof
  }

  predicate IsFault(a: Action) { a.ClientFault? || a.ServerFault? || a.Drop? }

  /** A client waiting for a message the server has written in full has it in hand. */
  lemma ClientHasGreeting(p: Setup, st: State)
    requires Ready(p) && Inv(p, st) && !st.dropped && st.client.AwaitHello? && st.down.Available() == 0
    requires st.down.sent == GreetingFrame(p)
    ensures Wanted(st.clientBuf) == 0
  {
    MessagesSendable(p.c, p.s, ClientKeys(p), []);
    var g := GreetingFrame(p);
    assert st.clientBuf == g[..|g|];
    WantedInFrame(ServerHelloMessage(p.s), |g|);
  }

  lemma ClientHasPort(p: Setup, st: State)
    requires Ready(p) && Inv(p, st) && !st.dropped && st.client.AwaitFinal? && st.down.Available() == 0
    requires PortPacks(p) && st.down.sent == GreetingFrame(p) + PortFrame(p)
    ensures Wanted(st.clientBuf) == 0
  {
    MessagesSendable(p.c, p.s, ClientKeys(p), []);
    var g, f := GreetingFrame(p), PortFrame(p);
    assert st.down.taken == |g + f|;
    assert st.clientBuf == (g + f)[|g|..];
    assert (g + f)[|g|..] == f[..|f|];
    WantedInFrame(PortMessage(p.s.port).value, |f|);
  }

  lemma ServerHasMessage(p: Setup, st: State)
    requires Ready(p) && Inv(p, st) && !st.dropped && ServerWaits(st) && st.up.Available() == 0
    ensures st.server.AwaitClient? && ClockPacks(p) && HelloFrame(p) <= st.up.sent ==> Wanted(st.serverBuf) == 0
    ensures st.server.AwaitAck? && st.up.sent == HelloFrame(p) + AckFrame(p) ==> Wanted(st.serverBuf) == 0
  {
    MessagesSendable(p.c, p.s, ClientKeys(p), SKEW_TEXT);
    var h, a := HelloFrame(p), AckFrame(p);
    if st.server.AwaitClient? && ClockPacks(p) && h <= st.up.sent {
      assert st.serverBuf == h[..|h|];
      WantedInFrame(HelloMessage(p.c).value, |h|);
    }
    if st.server.AwaitAck? && st.up.sent == h + a {
      assert st.serverBuf == a[..|a|];
      WantedInFrame(AckMessage(p.c, ClientKeys(p)), |a|);
    }
  }

  predicate ClientIdle(st: State)
    requires st.down.Valid()
  {
    ClientWaits(st) && Wanted(st.clientBuf) > 0 && st.down.Available() == 0
  }

  predicate ServerIdle(st: State)
    requires st.up.Valid()
  {
    ServerWaits(st) && Wanted(st.serverBuf) > 0 && st.up.Available() == 0
  }

  /** The two programs never wait for each other, and a server that sent its port
      leaves no client waiting. */
  lemma NoDeadlock(p: Setup, st: State)
    requires Ready(p) && Inv(p, st) && !st.dropped && ClientIdle(st)
    ensures !ServerIdle(st) && Confirmed(st.server).None?
  {
    MessagesSendable(p.c, p.s, ClientKeys(p), []);
    if st.client.AwaitHello? && st.down.sent == GreetingFrame(p) {
      ClientHasGreeting(p, st);
    }
    if st.client.AwaitFinal? && PortPacks(p) && st.down.sent == GreetingFrame(p) + PortFrame(p) {
      ClientHasPort(p, st);
    }
    if ServerIdle(st) {
      ServerHasMessage(p, st);
    }
  }

  lemma NextEnabled(p: Setup, st: State)
    requires st.up.Valid() && st.down.Valid() && !Finished(st)
    requires st.serverClosed ==> st.server == Returned(None)
    requires !st.dropped && ClientIdle(st) ==> !ServerIdle(st) && Confirmed(st.server).None?
    ensures Enabled(p, st, Next(st)) && !IsFault(Next(st))
  {
  }

  /** No reachable state is stuck: until both programs are over, a step that is not a
      fault is enabled, even after a drop. */
  lemma {:induction false} NeverStuck(p: Setup, st: State)
    requires Ready(p) && Inv(p, st) && !Finished(st)
    ensures Enabled(p, st, Next(st)) && !IsFault(Next(st))
  {
    if !st.dropped && ClientIdle(st) {
      NoDeadlock(p, st);
    }
    NextEnabled(p, st);
  }

  /** Steps left at most: each program counter weighs more than the bytes its later
      sends add, every undelivered byte counts one. */
  function ClientWeight(pc: ClientPc): nat {
    match pc
    case Connected => 104
    case AwaitHello => 54
    case Derived(_) => 53
    case AwaitFinal(_) => 1
    case Ended(_) => 0
  }

  function ServerWeight(pc: ServerPc): nat {
    match pc
    case AwaitClient => 92
    case Refusing(_) => 71
    case Greeting(_) => 91
    case AwaitAck(_) => 10
    case Verified(_) => 9
    case PortSent(_) => 1
    case Returned(_) => 0
  }

  function Rank(st: State): nat
    requires st.up.Valid() && st.down.Valid()
  {
    ClientWeight(st.client) + ServerWeight(st.server) + (|st.up.sent| - st.up.taken) + (|st.down.sent| - st.down.taken) +
    (if st.serverClosed then 0 else 1) + (if st.dropped then 0 else 1)
  }

  lemma RankClientSend(p: Setup, st: State)
    requires Ready(p) && Enabled(p, st, ClientSend) && st.up.Valid() && st.down.Valid()
    ensures var after := StepClientSend(p, st);
            after.up.Valid() && after.down.Valid() && Rank(after) < Rank(st)
  {
    MessagesSendable(p.c, p.s, if st.client.Derived? then st.client.keys else ClientKeys(p), []);
  }

  lemma SendWeighs(p: Setup, server: ServerPc)
    requires Ready(p) && (server.Refusing? || server.Greeting? || server.Verified?)
    ensures var (next, bytes) := ServerSends(p, server);
            ServerWeight(next) + |bytes| < ServerWeight(server)
  {
    MessagesSendable(p.c, p.s, ClientKeys(p), if server.Refusing? then server.text else []);
  }

  lemma RankServerSend(p: Setup, st: State)
    requires Ready(p) && Enabled(p, st, ServerSend) && st.up.Valid() && st.down.Valid()
    ensures var after := StepServerSend(p, st);
            after.up.Valid() && after.down.Valid() && Rank(after) < Rank(st)
  {
    SendWeighs(p, st.server);
  }

  lemma HandleWeighs(p: Setup, client: ClientPc, server: ServerPc, buf: Wire)
    ensures client.AwaitHello? || client.AwaitFinal? ==> ClientWeight(ClientAfter(p, client, buf)) < ClientWeight(client)
    ensures server.AwaitClient? || server.AwaitAck? ==> ServerWeight(ServerAfter(p, server, buf)) < ServerWeight(server)
  {
  }

  lemma RankHandle(p: Setup, st: State)
    requires st.up.Valid() && st.down.Valid()
    ensures ClientWaits(st) ==>
              StepClientHandle(p, st).up.Valid() && StepClientHandle(p, st).down.Valid() && Rank(StepClientHandle(p, st)) < Rank(st)
    ensures ServerWaits(st) ==>
              StepServerHandle(p, st).up.Valid() && StepServerHandle(p, st).down.Valid() && Rank(StepServerHandle(p, st)) < Rank(st)
  {
    HandleWeighs(p, st.client, st.server, st.clientBuf);
    HandleWeighs(p, st.client, st.server, st.serverBuf);
  }

  /** Every step, faults included, strictly decreases the rank. */
  lemma {:induction false} RankDecreases(p: Setup, st: State, a: Action)
    requires Ready(p) && Enabled(p, st, a) && st.up.Valid() && st.down.Valid()
    ensures var after := Apply(p, st, a);
            after.up.Valid() && after.down.Valid() && Rank(after) < Rank(st)
  {
    match a {
      case ClientSend => RankClientSend(p, st);
      case ServerSend => RankServerSend(p, st);
      case ClientHandle => RankHandle(p, st);
      case ServerHandle => RankHandle(p, st);
      case _ =>
    }
  }

  const LONGEST := 198

  /** Every schedule ends within a fixed number of steps, whatever the chunking. */
  lemma {:induction false} SchedulesAreShort(p: Setup, schedule: seq<Action>)
    requires Ready(p) && Execute(p, schedule).Some?
    ensures var st := Execute(p, schedule).value;
            st.up.Valid() && st.down.Valid() && |schedule| + Rank(st) <= 198
  {
    if schedule == [] {
    } else {
      var before := schedule[..|schedule| - 1];
      SchedulesAreShort(p, before);
      RankDecreases(p, Execute(p, before).value, schedule[|schedule| - 1]);
    }
  }

  lemma ExecuteMore(p: Setup, schedule: seq<Action>, a: Action)
    requires Ready(p) && Execute(p, schedule).Some? && Enabled(p, Execute(p, schedule).value, a)
    ensures Execute(p, schedule + [a]) == Some(Apply(p, Execute(p, schedule).value, a))
  {
    assert (schedule + [a])[..|schedule|] == schedule;
  }

  lemma FaultFreeStays(p: Setup, st: State, a: Action)
    requires Ready(p) && Enabled(p, st, a) && !a.ClientFault? && !a.Drop?
    ensures Apply(p, st, a).faulty == st.faulty
  {
  }

  /** One step that is not a fault, from any reachable state that is not finished. */
  lemma OneMore(p: Setup, schedule: seq<Action>) returns (a: Action)
    requires Ready(p) && Execute(p, schedule).Some? && !Finished(Execute(p, schedule).value)
    ensures !IsFault(a) && Execute(p, schedule + [a]).Some?
    ensures Execute(p, schedule + [a]).value.faulty == Execute(p, schedule).value.faulty
    ensures |schedule| < LONGEST
  {
    var st := Execute(p, schedule).value;
    ReachableInv(p, schedule);
    NeverStuck(p, st);
    a := Next(st);
    ExecuteMore(p, schedule, a);
    FaultFreeStays(p, st, a);
    SchedulesAreShort(p, schedule + [a]);
  }

  /** From wherever a schedule has got to, both programs can be brought to their end
      without any further fault. */
  lemma {:induction false} CanFinish(p: Setup, schedule: seq<Action>) returns (all: seq<Action>)
    requires Ready(p) && Execute(p, schedule).Some?
    ensures schedule <= all && |all| <= LONGEST
    ensures forall i :: |schedule| <= i < |all| ==> !IsFault(all[i])
    ensures Execute(p, all).Some? && Finished(Execute(p, all).value)
    decreases LONGEST - |schedule|
  {
    if Finished(Execute(p, schedule).value) {
      SchedulesAreShort(p, schedule);
      all := schedule;
    } else {
      var a := OneMore(p, schedule);
      all := CanFinish(p, schedule + [a]);
    }
  }

  lemma OneProgramMoves(p: Setup, st: State, a: Action)
    requires Ready(p) && Enabled(p, st, a)
    ensures Apply(p, st, a).client == st.client || Apply(p, st, a).server == st.server
  {
  }

  /** A compatible client that has ended has a server that got to the port. */
  lemma CompatibleSucceeds(p: Setup, st: State)
    requires Ready(p) && Compatible(p) && Inv(p, st) && !st.faulty && st.client.Ended?
    ensures Confirmed(st.server).Some?
  {
  }

  /** A compatible client only ends after the server has sent its port. */
  lemma PortComesFirst(p: Setup, schedule: seq<Action>, a: Action)
    requires Ready(p) && Compatible(p) && Execute(p, schedule + [a]).Some?
    requires !Execute(p, schedule + [a]).value.faulty
    requires Execute(p, schedule).Some? && !Execute(p, schedule).value.client.Ended?
    ensures Execute(p, schedule + [a]).value.client.Ended? ==> Confirmed(Execute(p, schedule).value.server).Some?
  {
    assert (schedule + [a])[..|schedule|] == schedule;
    var st := Execute(p, schedule).value;
    OneProgramMoves(p, st, a);
    ReachableInv(p, schedule + [a]);
    if Apply(p, st, a).client.Ended? {
      CompatibleSucceeds(p, Apply(p, st, a));
    }
  }

  lemma {:induction false} ServerReturns(p: Setup, schedule: seq<Action>) returns (all: seq<Action>)
    requires Ready(p) && Execute(p, schedule).Some? && Confirmed(Execute(p, schedule).value.server).Some?
    ensures Execute(p, all).Some? && Execute(p, all).value.client == Execute(p, schedule).value.client
    ensures Execute(p, all).value.server == Returned(Confirmed(Execute(p, schedule).value.server))
  {
    all := schedule;
    if Execute(p, schedule).value.server.PortSent? {
      ExecuteMore(p, schedule, ServerReturn);
      all := schedule + [ServerReturn];
    }
  }

  /** The converse of agreement fails once the client may time out: for every pair that
      would succeed there is a schedule on which the server returned keys and the
      client failed. */
  lemma {:induction false} HalfOpen(p: Setup, schedule: seq<Action>) returns (all: seq<Action>)
    requires Ready(p) && Compatible(p) && Execute(p, schedule).Some?
    requires !Execute(p, schedule).value.faulty && !Execute(p, schedule).value.client.Ended?
    ensures Execute(p, all).Some?
    ensures var st := Execute(p, all).value;
            st.server.Returned? && st.server.result.Some? && st.client.Ended? && st.client.outcome.Failed?
    decreases LONGEST - |schedule|
  {
    if Confirmed(Execute(p, schedule).value.server).Some? {
      var returned := ServerReturns(p, schedule);
      ExecuteMore(p, returned, ClientFault);
      all := returned + [ClientFault];
    } else {
      var a := OneMore(p, schedule);
      PortComesFirst(p, schedule, a);
      all := HalfOpen(p, schedule + [a]);
    }
  }

  // --------------------------------------------- exactly when agreement is one-sided

  /** A client that has sent its confirmation, in words that later steps keep. */
  predicate SentAck(p: Setup, st: State)
    requires Ready(p)
  {
    st.up.sent == HelloFrame(p) + AckFrame(p)
  }

  predicate ClientFailed(st: State) { st.client.Ended? && st.client.outcome.Failed? }

  /** The message after the greeting never makes the client fail. */
  lemma FinalNeverFails(p: Setup, st: State)
    requires Ready(p) && Inv(p, st) && st.client.AwaitFinal? && Wanted(st.clientBuf) == 0
    ensures !ClientFailed(StepClientHandle(p, st))
  {
    MessagesSendable(p.c, p.s, ClientKeys(p), SKEW_TEXT);
    var g := GreetingFrame(p);
    assert st.clientBuf <= st.down.sent[|g|..];
    if Confirmed(st.server).Some? {
      assert st.down.sent[|g|..] == PortFrame(p);
      CompleteBuffer(PortMessage(p.s.port).value, st.clientBuf);
      HonestPort(p);
    }
  }

  /** Before the confirmation, less has been written. */
  lemma AckIsLast(p: Setup, st: State)
    requires Ready(p) && Inv(p, st) && SentAck(p, st)
    ensures st.client.AwaitFinal? || st.client.Ended?
  {
    assert |HelloFrame(p) + AckFrame(p)| > |HelloFrame(p)|;
  }

  /** A step that is neither fault nor end of file makes no client fail that has sent its
      confirmation. */
  lemma OnlyFaultsFail(p: Setup, st: State, a: Action)
    requires Ready(p) && Inv(p, st) && Enabled(p, st, a) && !a.ClientFault? && !a.ClientEof?
    requires ClientFailed(Apply(p, st, a)) && SentAck(p, Apply(p, st, a))
    ensures ClientFailed(st) && SentAck(p, st)
  {
    if !st.client.Ended? {
      assert a.ClientSend? || a.ClientHandle?;
      assert Apply(p, st, a).up.sent == st.up.sent;
      AckIsLast(p, st);
      FinalNeverFails(p, st);
    }
  }

  lemma {:induction false} FailureInSchedule(p: Setup, schedule: seq<Action>)
    requires Ready(p) && Execute(p, schedule).Some?
    requires ClientFailed(Execute(p, schedule).value) && SentAck(p, Execute(p, schedule).value)
    ensures ClientFault in schedule || ClientEof in schedule
  {
    var front, a := schedule[..|schedule| - 1], schedule[|schedule| - 1];
    assert schedule == front + [a];
    if !a.ClientFault? && !a.ClientEof? {
      ReachableInv(p, front);
      OnlyFaultsFail(p, Execute(p, front).value, a);
      FailureInSchedule(p, front);
    }
  }

  lemma FailedStays(p: Setup, st: State, a: Action)
    requires Ready(p) && Enabled(p, st, a) && (ClientFailed(st) || a.ClientFault? || a.ClientEof?)
    ensures ClientFailed(Apply(p, st, a))
  {
  }

  lemma {:induction false} FailureStays(p: Setup, schedule: seq<Action>)
    requires Ready(p) && Execute(p, schedule).Some? && (ClientFault in schedule || ClientEof in schedule)
    ensures ClientFailed(Execute(p, schedule).value)
  {
    var front, a := schedule[..|schedule| - 1], schedule[|schedule| - 1];
    assert schedule == front + [a];
    if !a.ClientFault? && !a.ClientEof? {
      FailureStays(p, front);
    }
    FailedStays(p, Execute(p, front).value, a);
  }

  /** The server got to its port and the client has ended without a result. */
  predicate IsHalfOpen(st: State) { Confirmed(st.server).Some? && ClientFailed(st) }

  /** Over the schedule: once the server has got to its port and the client has ended,
      the client has failed exactly if it timed out or met an end of file. */
  lemma {:induction false} HalfOpenBySchedule(p: Setup, schedule: seq<Action>)
    requires Ready(p) && Execute(p, schedule).Some?
    requires Confirmed(Execute(p, schedule).value.server).Some? && Execute(p, schedule).value.client.Ended?
    ensures IsHalfOpen(Execute(p, schedule).value) <==> ClientFault in schedule || ClientEof in schedule
  {
    if IsHalfOpen(Execute(p, schedule).value) {
      ReachableInv(p, schedule);
      InvServerAgrees(p, Execute(p, schedule).value);
      FailureInSchedule(p, schedule);
    }
    if ClientFault in schedule || ClientEof in schedule {
      FailureStays(p, schedule);
    }
  }

  /** Over the settings: some schedule ends half-open exactly if the settings are such
      that a handshake without faults succeeds. */
  lemma {:induction false} HalfOpenBySettings(p: Setup)
    requires Ready(p)
    ensures (exists schedule :: Execute(p, schedule).Some? && IsHalfOpen(Execute(p, schedule).value)) <==> Compatible(p)
  {
    if schedule :| Execute(p, schedule).Some? && IsHalfOpen(Execute(p, schedule).value) {
      ReachableInv(p, schedule);
      InvServerAgrees(p, Execute(p, schedule).value);
    }
    if Compatible(p) {
      var schedule := HalfOpen(p, []);
      assert IsHalfOpen(Execute(p, schedule).value);
    }
  }

  // ------------------------------------------------------ the network is as free as TCP

  /** A read may return any number of bytes up to what it asked for and what is there. */
  predicate CanTake(buf: Wire, pipe: Pipe, n: nat) {
    0 < n <= Wanted(buf) && pipe.Valid() && n <= pipe.Available()
  }

  function Take(buf: Wire, pipe: Pipe, n: nat): (Wire, Pipe)
    requires pipe.taken + n <= |pipe.sent|
  {
    (buf + pipe.sent[pipe.taken..pipe.taken + n], pipe.(taken := pipe.taken + n))
  }

  lemma ReadsAreFree(p: Setup, st: State, n: nat)
    requires Ready(p)
    ensures Enabled(p, st, ClientRecv(n)) <==> ClientWaits(st) && CanTake(st.clientBuf, st.down, n)
    ensures Enabled(p, st, ServerRecv(n)) <==> ServerWaits(st) && CanTake(st.serverBuf, st.up, n)
    ensures Enabled(p, st, ClientRecv(n)) ==>
              var after := Apply(p, st, ClientRecv(n));
              (after.clientBuf, after.down) == Take(st.clientBuf, st.down, n) &&
              after == st.(clientBuf := after.clientBuf, down := after.down)
    ensures Enabled(p, st, ServerRecv(n)) ==>
              var after := Apply(p, st, ServerRecv(n));
              (after.serverBuf, after.up) == Take(st.serverBuf, st.up, n) &&
              after == st.(serverBuf := after.serverBuf, up := after.up)
  {
  }

  /** Chunking is arbitrary: `a + b` bytes can be taken at once exactly if so many are asked
      for and `a` bytes and then `b` can be, and then it comes to the same. */
  lemma Chunks(buf: Wire, pipe: Pipe, a: nat, b: nat)
    requires a > 0 && b > 0
    ensures CanTake(buf, pipe, a + b) <==>
              a + b <= Wanted(buf) && CanTake(buf, pipe, a) &&
              var (more, rest) := Take(buf, pipe, a); CanTake(more, rest, b)
    ensures CanTake(buf, pipe, a + b) ==>
              var (more, rest) := Take(buf, pipe, a); Take(more, rest, b) == Take(buf, pipe, a + b)
  {
    if CanTake(buf, pipe, a) && a + b <= Wanted(buf) {
      WantedLess(buf, pipe.sent[pipe.taken..pipe.taken + a]);
      if pipe.taken + a + b <= |pipe.sent| {
        TakeTwo(buf, pipe.sent, pipe.taken, a, b);
      }
    }
  }

  /** A read that has got part of what it asked for asks for the rest. */
  lemma WantedLess(buf: Wire, more: Wire)
    requires |more| < Wanted(buf)
    ensures Wanted(buf + more) == Wanted(buf) - |more|
  {
    if |buf| >= HEADER_SIZE {
      assert (buf + more)[1..HEADER_SIZE] == buf[1..HEADER_SIZE];
    }
  }

  lemma TakeTwo(buf: Wire, sent: Wire, taken: nat, a: nat, b: nat)
    requires taken + a + b <= |sent|
    ensures buf + sent[taken..taken + a] + sent[taken + a..taken + a + b] == buf + sent[taken..taken + (a + b)]
  {
    TakeMore(sent, taken, taken + a, b);
  }

  /** A read in progress asks for more exactly as long as an end of file now would fail it
      for want of bytes; once it asks for none, what comes later cannot change it. */
  lemma WantedExactly(buf: Wire, more: Wire, ending: Ending)
    ensures Wanted(buf) > 0 <==> Read(buf, Closed) == Fails(Closed, [])
    ensures Wanted(buf) > 0 <==> Read(buf, ending) == Fails(ending, [])
    ensures Wanted(buf) == 0 ==>
              match (Read(buf, ending), Read(buf + more, ending))
              case (Got(m, rest), Got(n, later)) => m == n && later == rest + more
              case (Fails(why, _), Fails(now, _)) => why == now
              case _ => false
  {
    if Wanted(buf) == 0 {
      assert (buf + more)[1..HEADER_SIZE] == buf[1..HEADER_SIZE];
      var size := SizeField(buf);
      if size <= MAX_SIZE {
        assert (buf + more)[HEADER_SIZE..HEADER_SIZE + size] == buf[HEADER_SIZE..HEADER_SIZE + size];
        assert (buf + more)[HEADER_SIZE + size..] == buf[HEADER_SIZE + size..] + more;
      }
    }
  }

  /** A program meets the end of file only when its read still wants bytes and none will
      come, and handles a message only when no byte can change it. */
  lemma EofsAreReal(p: Setup, st: State)
    requires Ready(p)
    ensures Enabled(p, st, ClientEof) ==>
              Read(st.clientBuf, Closed) == Fails(Closed, []) && st.down.taken == st.down.Limit() && (st.serverClosed || st.dropped)
    ensures Enabled(p, st, ServerEof) ==>
              Read(st.serverBuf, Closed) == Fails(Closed, []) && st.up.taken == st.up.Limit() && (st.client.Ended? || st.dropped)
    ensures Enabled(p, st, ClientHandle) ==> Read(st.clientBuf, Closed) != Fails(Closed, [])
    ensures Enabled(p, st, ServerHandle) ==> Read(st.serverBuf, Closed) != Fails(Closed, [])
  {
    WantedExactly(st.clientBuf, [], Closed);
    WantedExactly(st.serverBuf, [], Closed);
  }

  /** A connection can drop at any time, with each direction cut anywhere behind what was
      taken; from then on no more than that is ever delivered. */
  lemma DropAnywhere(p: Setup, st: State, up: nat, down: nat, w: Wire)
    requires Ready(p) && Inv(p, st) && !st.dropped && st.up.taken <= up && st.down.taken <= down
    ensures Enabled(p, st, Drop(up, down))
    ensures var after := Apply(p, st, Drop(up, down));
            after.dropped && after.client == st.client && after.server == st.server &&
            after.up.sent == st.up.sent && after.down.sent == st.down.sent &&
            after.up.Valid() && after.up.Available() == (if up < |st.up.sent| then up else |st.up.sent|) - st.up.taken &&
            after.down.Valid() && after.down.Available() == (if down < |st.down.sent| then down else |st.down.sent|) - st.down.taken &&
            after.up.Write(w).Limit() <= up && after.down.Write(w).Limit() <= down
  {
  }

  /** Without a drop everything written is delivered. */
  lemma {:induction false} NothingLost(p: Setup, schedule: seq<Action>)
    requires Ready(p) && Execute(p, schedule).Some?
    ensures var st := Execute(p, schedule).value;
            st.up.Valid() && st.down.Valid() &&
            (!st.dropped ==> st.up.Available() == |st.up.sent| - st.up.taken && st.down.Available() == |st.down.sent| - st.down.taken)
  {
    ReachableInv(p, schedule);
  }

  /** The client may time out as long as it has not ended, the server may meet an error
      once the connection is gone and it is not done; both then end with nothing. */
  lemma FaultsCanHappen(p: Setup, st: State)
    requires Ready(p)
    ensures !st.client.Ended? ==>
              Enabled(p, st, ClientFault) && Apply(p, st, ClientFault).client == Ended(Failed(HandshakeError))
    ensures (st.dropped || st.client.Ended?) && !st.server.PortSent? && !st.server.Returned? ==>
              Enabled(p, st, ServerFault) && Apply(p, st, ServerFault).server == Returned(None)
  {
  }
}
