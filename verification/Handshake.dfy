/** client/handshake.py: the hello codecs and the two sequential programs, each
    proved against a function of the bytes it receives. */
module Handshake {
  import opened Bytes
  import opened Crypto
  import opened Framing

  const PROTOCOL_VERSION := 1
  const HANDSHAKE_NONCE_SIZE := 32
  const MAX_CLOCK_SKEW := 120
  const HELLO_SIZE := 41
  const HELLO_FRAME := HEADER_SIZE + HELLO_SIZE

  /** `str.encode` of ASCII text. */
  function Ascii(s: string): (b: ByteString)
    requires forall i :: 0 <= i < |s| ==> s[i] < 128 as char
    ensures |b| == |s|
  {
    seq(|s|, i requires 0 <= i < |s| => s[i] as int)
  }

  const CONFIRM: ByteString := Ascii("HANDSHAKE_CONFIRM")
  const SKEW_TEXT: ErrorText := Ascii("ClientHello timestamp outside allowed window")

  function Decimal(b: Byte): (s: ByteString)
    ensures 0 < |s| <= 3
  {
    if b < 10 then [48 + b]
    else if b < 100 then [48 + b / 10, 48 + b % 10]
    else [48 + b / 100, 48 + b / 10 % 10, 48 + b % 10]
  }

  function VersionText(version: Byte): ErrorText {
    Ascii("Unsupported version ") + Decimal(version)
  }

  /** The `32s` format: cut, or filled up with zero bytes. */
  function Field32(s: ByteString): (f: ByteString)
    ensures |f| == 32 && (|s| == 32 ==> f == s)
  {
    if |s| >= 32 then s[..32] else s + seq(32 - |s|, _ => 0)
  }

  /** That is, the first 32 bytes of the text with as many zero bytes behind it. */
  lemma Field32Exactly(s: ByteString)
    ensures Field32(s) == (s + seq(32, _ => 0))[..32]
  {
  }

  datatype ClientHello = ClientHello(version: int, timestamp: int, publicKey: ByteString)

  /** `struct.pack("!BQ32s", ...)`; None is struct.error. */
  function SerializeClientHello(h: ClientHello): Option<ByteString> {
    if 0 <= h.version < 256 && 0 <= h.timestamp < Pow256(8)
    then Some([h.version] + Pack(h.timestamp, 8) + Field32(h.publicKey))
    else None
  }

  function DeserializeClientHello(data: ByteString): Option<ClientHello> {
    if |data| == HELLO_SIZE then Some(ClientHello(data[0], Unpack(data[1..9]), data[9..])) else None
  }

  /** Every hello with fields in range and a 32-byte key survives the wire. */
  lemma ClientHelloRoundTrip(h: ClientHello)
    requires 0 <= h.version < 256 && 0 <= h.timestamp < Pow256(8) && |h.publicKey| == 32
    ensures SerializeClientHello(h).Some? && DeserializeClientHello(SerializeClientHello(h).value) == Some(h)
  {
    var data := [h.version] + Pack(h.timestamp, 8) + Field32(h.publicKey);
    assert data[1..9] == Pack(h.timestamp, 8) && data[9..] == h.publicKey;
    UnpackPack(h.timestamp, 8);
  }

  /** Every 41-byte string is the serialization of the hello it deserializes to. */
  lemma ClientHelloOnto(data: ByteString)
    requires |data| == HELLO_SIZE
    ensures var h := DeserializeClientHello(data).value;
            |h.publicKey| == 32 && SerializeClientHello(h) == Some(data)
  {
    PackUnpack(data[1..9]);
    assert data == [data[0]] + data[1..9] + data[9..];
  }

  datatype ServerHello = ServerHello(publicKey: ByteString, nonce: ByteString)

  function SerializeServerHello(h: ServerHello): ByteString {
    Field32(h.publicKey) + h.nonce
  }

  /** Slices never fail: a short message gives a short key and an empty nonce. */
  function DeserializeServerHello(data: ByteString): ServerHello {
    if |data| >= 32 then ServerHello(data[..32], data[32..]) else ServerHello(data, [])
  }

  lemma ServerHelloRoundTrip(h: ServerHello)
    requires |h.publicKey| == 32
    ensures DeserializeServerHello(SerializeServerHello(h)) == h
  {
    var data := SerializeServerHello(h);
    assert data[..32] == h.publicKey && data[32..] == h.nonce;
  }

  lemma ServerHelloOnto(data: ByteString)
    requires |data| >= 32
    ensures SerializeServerHello(DeserializeServerHello(data)) == data
  {
    assert data == data[..32] + data[32..];
  }

  /** The client's key pair, trust settings, clock reading and encryption randomness, and
      the peer keys on which X25519's exchange raises ValueError. */
  datatype Client = Client(
    public: ByteString, pin: Option<ByteString>, allowInsecure: bool, now: int,
    nonce: ByteString, output: ByteString, lowOrder: set<ByteString>)

  /** The server's key pair, clock reading, salt and the UDP port it was given, and the
      keys X25519 rejects. */
  datatype Server = Server(public: ByteString, now: int, salt: ByteString, port: int, lowOrder: set<ByteString>)

  predicate ClientReady(c: Client) {
    |c.public| == 32 && SealInputs(c.nonce, CONFIRM, c.output)
  }

  predicate ServerReady(s: Server) {
    |s.public| == 32 && |s.salt| == HANDSHAKE_NONCE_SIZE
  }

  /** The exceptions that leave `perform_handshake`. */
  datatype ClientError = HandshakeError | ValueError | StructError

  datatype Result<+T> = Ok(value: T) | Err(error: ClientError)

  function ReadError(why: Failure): ClientError {
    if why.UnknownType? then ValueError else HandshakeError
  }

  function HelloMessage(c: Client): Option<Message> {
    match SerializeClientHello(ClientHello(PROTOCOL_VERSION, c.now, c.public))
    case None => None
    case Some(data) => Some(Message(CLIENT_HELLO, Plain(data)))
  }

  /** An empty pin is falsy, so it counts as no pin. */
  predicate Trusted(c: Client, key: ByteString) {
    if c.pin.Some? && c.pin.value != [] then key == c.pin.value else c.allowInsecure
  }

  function OnServerHello(c: Client, m: Message): Result<SessionKeys> {
    if m.kind != SERVER_HELLO then Err(HandshakeError)
    else
      var hello := DeserializeServerHello(Values(m.data));
      if !Trusted(c, hello.publicKey) then Err(HandshakeError)
      else if |hello.nonce| != HANDSHAKE_NONCE_SIZE then Err(HandshakeError)
      else if hello.publicKey in c.lowOrder then Err(ValueError)
      else Ok(DeriveSessionKeys(c.public, hello.publicKey, hello.nonce))
  }

  function AckMessage(c: Client, keys: SessionKeys): (m: Message)
    requires ClientReady(c)
    ensures |m.data| == |CONFIRM| + 28
  {
    Message(CLIENT_ACK, Encrypt(keys.encryptKey, c.nonce, CONFIRM, c.output))
  }

  function OnFinal(m: Message): Result<nat> {
    if m.kind != CLIENT_ACK then Err(HandshakeError)
    else if |m.data| < 2 then Err(StructError)
    else Ok(Unpack(Values(m.data[..2])))
  }

  /** The server's answer to the first message: end at once, send an error text and
      end, or go on with these keys. */
  datatype Reply = Silent | Refuse(text: ErrorText) | Accept(keys: SessionKeys)

  type ErrorText = t: ByteString | |t| <= 64

  function Distance(a: int, b: int): nat {
    if a < b then b - a else a - b
  }

  function OnClientHello(s: Server, m: Message): Reply {
    if m.kind != CLIENT_HELLO then Silent
    else
      match DeserializeClientHello(Values(m.data))
      case None => Silent
      case Some(hello) =>
        if hello.version != PROTOCOL_VERSION then Refuse(VersionText(hello.version as Byte))
        else if Distance(s.now, hello.timestamp) > MAX_CLOCK_SKEW then Refuse(SKEW_TEXT)
        else if hello.publicKey in s.lowOrder then Silent
        else Accept(DeriveSessionKeys(s.public, hello.publicKey, s.salt))
  }

  function RefusalMessage(text: ErrorText): Message {
    Message(ERROR, Plain(text))
  }

  function ServerHelloMessage(s: Server): Message {
    Message(SERVER_HELLO, Plain(SerializeServerHello(ServerHello(s.public, s.salt))))
  }

  predicate AckAccepted(keys: SessionKeys, m: Message) {
    m.kind == CLIENT_ACK && Decrypt(keys.decryptKey, m.data) == Some(CONFIRM)
  }

  /** `struct.pack("!H", port)`; None is struct.error. */
  function PortMessage(port: int): Option<Message> {
    if 0 <= port < Pow256(2) then Some(Message(CLIENT_ACK, Plain(Pack(port, 2)))) else None
  }

  lemma MessagesSendable(c: Client, s: Server, keys: SessionKeys, text: ErrorText)
    requires ClientReady(c) && ServerReady(s)
    ensures HelloMessage(c).Some? ==> Sendable(HelloMessage(c).value) && |HelloMessage(c).value.data| == HELLO_SIZE
    ensures Sendable(AckMessage(c, keys)) && |AckMessage(c, keys).data| == 45
    ensures Sendable(ServerHelloMessage(s)) && |ServerHelloMessage(s).data| == 64
    ensures Sendable(RefusalMessage(text)) && |RefusalMessage(text).data| == |text|
    ensures PortMessage(s.port).Some? ==> Sendable(PortMessage(s.port).value) && |PortMessage(s.port).value.data| == 2
  {
    LengthFits();
  }

  // ------------------------------------------------------ the messages, byte by byte

  /** Version 1 hello: type, length, version, time and key. */
  function HelloBytes(c: Client): ByteString
    requires 0 <= c.now < Pow256(8)
  {
    [1, 0, 0, 0, 41, 1] + Pack(c.now, 8) + c.public
  }

  function GreetingBytes(s: Server): ByteString { [2, 0, 0, 0, 64] + s.public + s.salt }

  function AckBytes(c: Client): ByteString { [3, 0, 0, 0, 45] + c.nonce + c.output }

  function PortBytes(port: nat): ByteString
    requires port < 65536
  {
    [3, 0, 0, 0, 2, port / 256, port % 256]
  }

  function RefusalBytes(text: ErrorText): ByteString { [255, 0, 0, 0, |text|] + text }

  lemma FrameBytes(m: Message)
    requires |m.data| < 256
    ensures |m.data| < Pow256(4) && Values(Frame(m)) == [m.kind, 0, 0, 0, |m.data|] + Values(m.data)
  {
    LengthFits();
    var n := |m.data|;
    assert Pack(n, 4) == [0, 0, 0, n] by {
      assert Pack(n, 1) == [n];
      assert n / 256 == 0;
      assert Pack(0, 3) == [0, 0, 0];
    }
    ValuesPlain(Header(m.kind, n));
    ValuesConcat(Plain(Header(m.kind, n)), m.data);
  }

  lemma HelloLayout(c: Client)
    requires ClientReady(c)
    ensures HelloMessage(c).Some? <==> 0 <= c.now < Pow256(8)
    ensures HelloMessage(c).Some? ==>
              |HelloMessage(c).value.data| < Pow256(4) && Values(Frame(HelloMessage(c).value)) == HelloBytes(c)
  {
    if HelloMessage(c).Some? {
      var data := [1] + Pack(c.now, 8) + c.public;
      assert HelloMessage(c).value.data == Plain(data);
      FrameBytes(HelloMessage(c).value);
      ValuesPlain(data);
      assert [1, 0, 0, 0, 41] + data == HelloBytes(c);
    }
  }

  lemma GreetingLayout(s: Server)
    requires ServerReady(s)
    ensures |ServerHelloMessage(s).data| < Pow256(4) && Values(Frame(ServerHelloMessage(s))) == GreetingBytes(s)
  {
    FrameBytes(ServerHelloMessage(s));
    ValuesPlain(s.public + s.salt);
    assert [2, 0, 0, 0, 64] + (s.public + s.salt) == GreetingBytes(s);
  }

  lemma AckLayout(c: Client, keys: SessionKeys)
    requires ClientReady(c)
    ensures |AckMessage(c, keys).data| < Pow256(4) && Values(Frame(AckMessage(c, keys))) == AckBytes(c)
  {
    var m := AckMessage(c, keys);
    FrameBytes(m);
    assert Values(m.data) == c.nonce + c.output;
    assert [3, 0, 0, 0, 45] + (c.nonce + c.output) == AckBytes(c);
  }

  lemma PortLayout(port: int)
    ensures PortMessage(port).Some? <==> 0 <= port < 65536
    ensures PortMessage(port).Some? ==>
              |PortMessage(port).value.data| < Pow256(4) && Values(Frame(PortMessage(port).value)) == PortBytes(port)
  {
    LengthFits();
    if PortMessage(port).Some? {
      FrameBytes(PortMessage(port).value);
      assert Pack(port, 2) == [port / 256, port % 256] by {
        assert Pack(port / 256, 1) == [port / 256];
      }
      ValuesPlain(Pack(port, 2));
    }
  }

  /** The texts, and that the number in the first reads back. */
  lemma RefusalLayout(text: ErrorText, version: Byte)
    ensures |RefusalMessage(text).data| < Pow256(4) && Values(Frame(RefusalMessage(text))) == RefusalBytes(text)
    ensures SKEW_TEXT == Ascii("ClientHello timestamp outside allowed window")
    ensures VersionText(version) == Ascii("Unsupported version ") + Decimal(version) && ReadDecimal(Decimal(version)) == version
    ensures |Decimal(version)| > 1 ==> Decimal(version)[0] != 48
  {
    FrameBytes(RefusalMessage(text));
    ValuesPlain(text);
    DecimalReads(version);
  }

  lemma ReadMore(s: ByteString, d: int)
    requires 0 <= d < 10
    ensures ReadDecimal(s + [48 + d]) == 10 * ReadDecimal(s) + d
  {
    assert (s + [48 + d])[..|s|] == s;
  }

  lemma ReadDigits(x: int, y: int, z: int)
    requires 0 <= x < 10 && 0 <= y < 10 && 0 <= z < 10
    ensures ReadDecimal([48 + z]) == z
    ensures ReadDecimal([48 + y, 48 + z]) == 10 * y + z
    ensures ReadDecimal([48 + x, 48 + y, 48 + z]) == 100 * x + 10 * y + z
  {
    ReadMore([], x);
    ReadMore([], y);
    ReadMore([], z);
    ReadMore([48 + x], y);
    ReadMore([48 + y], z);
    ReadMore([48 + x, 48 + y], z);
    assert [] + [48 + x] == [48 + x] && [] + [48 + y] == [48 + y] && [] + [48 + z] == [48 + z];
    assert [48 + x] + [48 + y] == [48 + x, 48 + y] && [48 + y] + [48 + z] == [48 + y, 48 + z];
    assert [48 + x, 48 + y] + [48 + z] == [48 + x, 48 + y, 48 + z];
  }

  lemma DecimalReads(b: Byte)
    ensures ReadDecimal(Decimal(b)) == b
    ensures forall d :: d in Decimal(b) ==> 48 <= d < 58
    ensures |Decimal(b)| > 1 ==> Decimal(b)[0] != 48
  {
    ReadDigits(b / 100, b / 10 % 10, b % 10);
    if b < 100 {
      assert b / 10 % 10 == b / 10;
    }
  }

  function ReadDecimal(s: ByteString): int {
    if s == [] then 0 else 10 * ReadDecimal(s[..|s| - 1]) + (s[|s| - 1] as int - 48)
  }

  // ------------------------------------- acceptance, stated by the serializers

  predicate Serializes(h: ClientHello, m: Message) {
    0 <= h.version < 256 && 0 <= h.timestamp < Pow256(8) && |h.publicKey| == 32 &&
    SerializeClientHello(h) == Some(Values(m.data))
  }

  /** The server accepts exactly a well-formed hello of its version inside the clock
      window with a key X25519 takes, and refuses aloud exactly the hellos of another
      version or outside the window. */
  lemma ServerAcceptsExactly(s: Server, m: Message, h: ClientHello)
    requires m.kind == CLIENT_HELLO && Serializes(h, m)
    ensures OnClientHello(s, m) ==
            if h.version != 1 then Refuse(VersionText(h.version))
            else if s.now - h.timestamp > 120 || h.timestamp - s.now > 120 then Refuse(SKEW_TEXT)
            else if h.publicKey in s.lowOrder then Silent
            else Accept(DeriveSessionKeys(s.public, h.publicKey, s.salt))
  {
    ClientHelloRoundTrip(h);
  }

  predicate SilencingHello(s: Server, h: ClientHello) {
    h.version == 1 && -120 <= s.now - h.timestamp <= 120 && h.publicKey in s.lowOrder
  }

  /** It ends without an answer exactly when the message is no serialized hello, or one it
      would accept but for a key X25519 rejects. */
  lemma ServerSilentExactly(s: Server, m: Message)
    ensures OnClientHello(s, m).Silent? <==>
              m.kind != CLIENT_HELLO ||
              forall h: ClientHello :: Serializes(h, m) ==> SilencingHello(s, h)
  {
    if m.kind == CLIENT_HELLO {
      forall h: ClientHello | Serializes(h, m)
        ensures OnClientHello(s, m).Silent? <==> SilencingHello(s, h)
      {
        ServerAcceptsExactly(s, m, h);
      }
      if |m.data| == HELLO_SIZE {
        ClientHelloOnto(Values(m.data));
        PackUnpack(Values(m.data)[1..9]);
        var h := DeserializeClientHello(Values(m.data)).value;
        assert Serializes(h, m);
      }
    }
  }

  /** The client derives keys exactly from a hello with a trusted 32-byte key that X25519
      takes and a 32-byte salt: the pinned key if there is a pin, any key if it was told
      so; with a rejected key in such a hello it ends in ValueError. */
  lemma ClientAcceptsExactly(c: Client, m: Message)
    ensures OnServerHello(c, m).Ok? <==>
              m.kind == SERVER_HELLO && |m.data| == 64 &&
              (if c.pin.Some? && |c.pin.value| > 0 then Values(m.data)[..32] == c.pin.value else c.allowInsecure) &&
              Values(m.data)[..32] !in c.lowOrder
    ensures OnServerHello(c, m) == Err(ValueError) <==>
              m.kind == SERVER_HELLO && |m.data| == 64 && Trusted(c, Values(m.data)[..32]) &&
              Values(m.data)[..32] in c.lowOrder
    ensures OnServerHello(c, m).Ok? ==>
              exists h: ServerHello :: |h.publicKey| == 32 && |h.nonce| == 32 && SerializeServerHello(h) == Values(m.data) &&
                OnServerHello(c, m).value == DeriveSessionKeys(c.public, h.publicKey, h.nonce)
  {
    var data := Values(m.data);
    if |data| >= 32 {
      ServerHelloOnto(data);
    }
    if OnServerHello(c, m).Ok? {
      var h := DeserializeServerHello(data);
      assert |h.publicKey| == 32;
    }
  }

  /** The port is the first two bytes of the final message, which may be longer. */
  lemma FinalExactly(m: Message, port: nat)
    ensures OnFinal(m) == Ok(port) <==>
              m.kind == CLIENT_ACK && port < Pow256(2) && Pack(port, 2) <= Values(m.data)
    ensures OnFinal(m) == Err(StructError) <==> m.kind == CLIENT_ACK && |m.data| < 2
  {
    if |m.data| >= 2 {
      assert Values(m.data[..2]) == Values(m.data)[..2];
      PackUnpack(Values(m.data[..2]));
      if port < Pow256(2) {
        UnpackPack(port, 2);
      }
    }
  }

  datatype Outcome = Done(keys: SessionKeys, port: nat) | Failed(error: ClientError)

  /** A whole client run: the outcome, everything it sends, and the keys left in the
      `session_keys` field. */
  datatype ClientRun = ClientRun(outcome: Outcome, sent: Wire, stored: Option<SessionKeys>)

  /** The second half of `perform_handshake`, from the derived keys on. */
  function FinishClient(c: Client, keys: SessionKeys, sent: Wire, incoming: Wire, ending: Ending): ClientRun
    requires ClientReady(c)
  {
    LengthFits();
    var all := sent + Frame(AckMessage(c, keys));
    match Read(incoming, ending)
    case Fails(why, _) => ClientRun(Failed(ReadError(why)), all, Some(keys))
    case Got(final, _) =>
      match OnFinal(final)
      case Err(e) => ClientRun(Failed(e), all, Some(keys))
      case Ok(port) => ClientRun(Done(keys, port), all, Some(keys))
  }

  /** What the client makes of the server's first message, and the bytes it leaves. */
  function HearHello(c: Client, incoming: Wire, ending: Ending): (Result<SessionKeys>, Wire) {
    match Read(incoming, ending)
    case Fails(why, rest) => (Err(ReadError(why)), rest)
    case Got(answer, rest) => (OnServerHello(c, answer), rest)
  }

  /** What `perform_handshake` does when `incoming` is everything that ever arrives. */
  function RunClient(c: Client, incoming: Wire, ending: Ending): ClientRun
    requires ClientReady(c)
  {
    LengthFits();
    match HelloMessage(c)
    case None => ClientRun(Failed(StructError), [], None)
    case Some(hello) =>
      match HearHello(c, incoming, ending)
      case (Err(e), _) => ClientRun(Failed(e), Frame(hello), None)
      case (Ok(keys), rest) => FinishClient(c, keys, Frame(hello), rest, ending)
  }

  datatype ServerRun = ServerRun(keys: Option<SessionKeys>, sent: Wire)

  /** The second half of `handle_handshake`, from the sent hello on, and what it adds. */
  function FinishServer(s: Server, keys: SessionKeys, incoming: Wire, ending: Ending): ServerRun {
    LengthFits();
    match Read(incoming, ending)
    case Fails(_, _) => ServerRun(None, [])
    case Got(ack, _) =>
      if !AckAccepted(keys, ack) then ServerRun(None, [])
      else
        match PortMessage(s.port)
        case None => ServerRun(None, [])
        case Some(final) => ServerRun(Some(keys), Frame(final))
  }

  /** From accepting the hello on. */
  function GreetClient(s: Server, keys: SessionKeys, incoming: Wire, ending: Ending): ServerRun
    requires ServerReady(s)
  {
    LengthFits();
    var run := FinishServer(s, keys, incoming, ending);
    run.(sent := Frame(ServerHelloMessage(s)) + run.sent)
  }

  /** What `handle_handshake` does when `incoming` is everything that ever arrives. */
  function RunServer(s: Server, incoming: Wire, ending: Ending): ServerRun
    requires ServerReady(s)
  {
    LengthFits();
    match Read(incoming, ending)
    case Fails(_, _) => ServerRun(None, [])
    case Got(first, rest) =>
      match OnClientHello(s, first)
      case Silent => ServerRun(None, [])
      case Refuse(text) => ServerRun(None, Frame(RefusalMessage(text)))
      case Accept(keys) => GreetClient(s, keys, rest, ending)
  }

  /** On any incoming bytes, honest or not: the client succeeds exactly on an acceptable
      server hello followed by a final message that starts with the port. */
  lemma ClientSucceedsExactly(c: Client, incoming: Wire, ending: Ending, keys: SessionKeys, port: nat)
    requires ClientReady(c)
    ensures RunClient(c, incoming, ending).outcome == Done(keys, port) <==>
              HelloMessage(c).Some? &&
              exists hello: Message, final: Message, rest: Wire ::
                Sendable(hello) && Sendable(final) &&
                Values(incoming) == Values(Frame(hello) + (Frame(final) + rest)) &&
                OnServerHello(c, hello) == Ok(keys) && OnFinal(final) == Ok(port)
  {
    if RunClient(c, incoming, ending).outcome == Done(keys, port) {
      ReadGotFrame(incoming, ending);
      var first := Read(incoming, ending);
      ReadGotFrame(first.rest, ending);
      var second := Read(first.rest, ending);
      ValuesConcat(Frame(first.m), first.rest);
      ValuesConcat(Frame(first.m), Frame(second.m) + second.rest);
    }
    if HelloMessage(c).Some? {
      if hello: Message, final: Message, rest: Wire :|
        Sendable(hello) && Sendable(final) &&
        Values(incoming) == Values(Frame(hello) + (Frame(final) + rest)) &&
        OnServerHello(c, hello) == Ok(keys) && OnFinal(final) == Ok(port)
      {
        ClientAcceptsStream(c, incoming, ending, hello, final, rest);
      }
    }
  }

  lemma ClientAcceptsStream(c: Client, incoming: Wire, ending: Ending, hello: Message, final: Message, rest: Wire)
    requires ClientReady(c) && HelloMessage(c).Some?
    requires Sendable(hello) && Sendable(final)
    requires Values(incoming) == Values(Frame(hello) + (Frame(final) + rest))
    requires OnServerHello(c, hello).Ok? && OnFinal(final).Ok?
    ensures RunClient(c, incoming, ending).outcome == Done(OnServerHello(c, hello).value, OnFinal(final).value)
  {
    ReadFrame(hello, Frame(final) + rest, ending);
    ReadByValues(incoming, Frame(hello) + (Frame(final) + rest), ending);
    var first := Read(incoming, ending);
    ReadFrame(final, rest, ending);
    ReadByValues(first.rest, Frame(final) + rest, ending);
    var second := Read(first.rest, ending);
    assert Values(second.m.data[..2]) == Values(second.m.data)[..2];
    assert Values(final.data[..2]) == Values(final.data)[..2];
  }

  /** The bytes start with a hello the client derives keys from, and go on with `rest`. */
  predicate GoesOn(c: Client, incoming: Wire, hello: Message, rest: Wire) {
    Sendable(hello) && OnServerHello(c, hello).Ok? && Values(incoming) == Values(Frame(hello) + rest)
  }

  /** The client gets as far as its second read exactly on such bytes. */
  lemma GoesOnExactly(c: Client, incoming: Wire, ending: Ending)
    ensures var first := Read(incoming, ending);
            first.Got? && OnServerHello(c, first.m).Ok? ==> GoesOn(c, incoming, first.m, first.rest)
    ensures forall hello: Message, rest: Wire :: GoesOn(c, incoming, hello, rest) ==>
              var first := Read(incoming, ending);
              first.Got? && OnServerHello(c, first.m).Ok? && Values(first.rest) == Values(rest)
  {
    if Read(incoming, ending).Got? {
      ReadGotFrame(incoming, ending);
    }
    forall hello: Message, rest: Wire | GoesOn(c, incoming, hello, rest)
      ensures var first := Read(incoming, ending);
              first.Got? && OnServerHello(c, first.m).Ok? && Values(first.rest) == Values(rest)
    {
      ReadFrame(hello, rest, ending);
      ReadByValues(incoming, Frame(hello) + rest, ending);
    }
  }

  /** The bytes start with a trusted hello whose key X25519 rejects. */
  ghost predicate StartsRejected(c: Client, w: Wire) {
    exists hello: Message, rest: Wire ::
      Sendable(hello) && hello.kind == SERVER_HELLO && |hello.data| == 64 &&
      Trusted(c, Values(hello.data)[..32]) && Values(hello.data)[..32] in c.lowOrder &&
      Values(w) == Values(Frame(hello) + rest)
  }

  lemma ReadRejectedExactly(c: Client, w: Wire, ending: Ending)
    ensures Read(w, ending).Got? && OnServerHello(c, Read(w, ending).m) == Err(ValueError) <==> StartsRejected(c, w)
  {
    if Read(w, ending).Got? {
      ReadGotFrame(w, ending);
      ClientAcceptsExactly(c, Read(w, ending).m);
    }
    if hello: Message, rest: Wire :|
      Sendable(hello) && hello.kind == SERVER_HELLO && |hello.data| == 64 &&
      Trusted(c, Values(hello.data)[..32]) && Values(hello.data)[..32] in c.lowOrder &&
      Values(w) == Values(Frame(hello) + rest)
    {
      ReadFrame(hello, rest, ending);
      ReadByValues(w, Frame(hello) + rest, ending);
    }
  }

  /** `ValueError` leaves the client exactly when the first message, or the one after an
      acceptable hello, has an unknown type, or X25519 rejects the key of a trusted hello. */
  lemma ClientValueErrorExactly(c: Client, incoming: Wire, ending: Ending)
    requires ClientReady(c)
    ensures RunClient(c, incoming, ending).outcome == Failed(ValueError) <==>
              HelloMessage(c).Some? &&
              (StartsUnknown(incoming) || StartsRejected(c, incoming) ||
               exists hello: Message, rest: Wire :: GoesOn(c, incoming, hello, rest) && StartsUnknown(rest))
  {
    GoesOnExactly(c, incoming, ending);
    ReadUnknownExactly(incoming, ending);
    ReadRejectedExactly(c, incoming, ending);
    var first := Read(incoming, ending);
    if first.Got? && OnServerHello(c, first.m).Ok? {
      ReadUnknownExactly(first.rest, ending);
    }
  }

  /** The final message is an acknowledgement too short for a port. */
  ghost predicate StartsShort(w: Wire) {
    exists final: Message, rest: Wire ::
      Sendable(final) && final.kind == CLIENT_ACK && |final.data| < 2 && Values(w) == Values(Frame(final) + rest)
  }

  lemma ReadShortExactly(w: Wire, ending: Ending)
    ensures Read(w, ending).Got? && OnFinal(Read(w, ending).m) == Err(StructError) <==> StartsShort(w)
  {
    if Read(w, ending).Got? {
      ReadGotFrame(w, ending);
    }
    if final: Message, rest: Wire :|
      Sendable(final) && final.kind == CLIENT_ACK && |final.data| < 2 && Values(w) == Values(Frame(final) + rest)
    {
      ReadFrame(final, rest, ending);
      ReadByValues(w, Frame(final) + rest, ending);
    }
  }

  /** `struct.error` leaves it exactly when the clock does not fit eight bytes, or the
      message after an acceptable hello is an acknowledgement too short for a port. */
  lemma ClientStructErrorExactly(c: Client, incoming: Wire, ending: Ending)
    requires ClientReady(c)
    ensures RunClient(c, incoming, ending).outcome == Failed(StructError) <==>
              !(0 <= c.now < Pow256(8)) ||
              exists hello: Message, rest: Wire :: GoesOn(c, incoming, hello, rest) && StartsShort(rest)
  {
    GoesOnExactly(c, incoming, ending);
    var first := Read(incoming, ending);
    if first.Got? && OnServerHello(c, first.m).Ok? {
      ReadShortExactly(first.rest, ending);
    }
  }

  lemma ZeroBytesUnknown(ending: Ending)
    ensures Read(Plain([0, 0, 0, 0, 0]), ending) == Fails(UnknownType, [])
  {
    LengthFits();
    ReadRejects(0, [], 0, [], ending);
    assert Pack(0, 4) == [0, 0, 0, 0];
    assert Frame(Message(0, [])) + [] == Plain([0, 0, 0, 0, 0]);
  }

  lemma ShortAckAnswers(c: Client, s: Server, ending: Ending)
    requires ClientReady(c) && ServerReady(s) && Trusted(c, s.public) && |ServerHelloMessage(s).data| < Pow256(4)
    ensures var short := Frame(Message(CLIENT_ACK, []));
            HearHello(c, Frame(ServerHelloMessage(s)) + short, ending) ==
            (if s.public in c.lowOrder then Err(ValueError) else Ok(DeriveSessionKeys(c.public, s.public, s.salt)), short)
  {
    LengthFits();
    ReadFrame(ServerHelloMessage(s), Frame(Message(CLIENT_ACK, [])), ending);
    ServerHelloRoundTrip(ServerHello(s.public, s.salt));
    ValuesPlain(SerializeServerHello(ServerHello(s.public, s.salt)));
  }

  /** Inputs on which the client does not raise `HandshakeError`: five zero bytes; a
      trusted hello with an empty acknowledgement behind it, with a key that X25519 rejects
      or takes; a clock before 1970. */
  lemma OtherErrorsHappen(c: Client, s: Server, ending: Ending)
    requires ClientReady(c) && ServerReady(s) && 0 <= c.now < Pow256(8) && Trusted(c, s.public)
    ensures RunClient(c, Plain([0, 0, 0, 0, 0]), ending).outcome == Failed(ValueError)
    ensures var incoming := Frame(ServerHelloMessage(s)) + Frame(Message(CLIENT_ACK, []));
            RunClient(c, incoming, ending).outcome == Failed(if s.public in c.lowOrder then ValueError else StructError)
    ensures RunClient(c.(now := -1), [], ending).outcome == Failed(StructError)
  {
    MessagesSendable(c, s, DeriveSessionKeys(c.public, s.public, s.salt), []);
    ZeroBytesUnknown(ending);
    ShortAckAnswers(c, s, ending);
    var short := Frame(Message(CLIENT_ACK, []));
    ReadFrame(Message(CLIENT_ACK, []), [], ending);
    assert short + [] == short;
  }

  /** A confirmation that opens to the agreed text, with these very bytes behind the first
      frame. */
  predicate Confirms(s: Server, keys: SessionKeys, incoming: Wire, hello: Message, ack: Message, rest: Wire) {
    && Sendable(hello) && Sendable(ack) && Values(incoming) == Values(Frame(hello) + (Frame(ack) + rest))
    && ack.kind == CLIENT_ACK && Decrypt(keys.decryptKey, ack.data) == Some(CONFIRM)
    && |incoming| >= |Frame(hello)| + |Frame(ack)|
    && incoming[|Frame(hello)| + HEADER_SIZE..|Frame(hello)| + |Frame(ack)|] == ack.data
  }

  /** On any incoming bytes: the server returns keys exactly on the frame of an acceptable
      hello followed by the frame of a confirmation, when its port fits two bytes. */
  lemma ServerSucceedsExactly(s: Server, incoming: Wire, ending: Ending, keys: SessionKeys)
    requires ServerReady(s)
    ensures RunServer(s, incoming, ending).keys == Some(keys) <==>
              0 <= s.port < 65536 &&
              exists hello: Message, ack: Message, rest: Wire ::
                OnClientHello(s, hello) == Accept(keys) && Confirms(s, keys, incoming, hello, ack, rest)
  {
    LengthFits();
    if RunServer(s, incoming, ending).keys == Some(keys) {
      ServerHeard(s, incoming, ending, keys);
    }
    if hello: Message, ack: Message, rest: Wire :|
      OnClientHello(s, hello) == Accept(keys) && Confirms(s, keys, incoming, hello, ack, rest)
    {
      ServerAcceptsStream(s, incoming, ending, keys, hello, ack, rest);
    }
  }

  lemma ServerHeard(s: Server, incoming: Wire, ending: Ending, keys: SessionKeys)
    requires ServerReady(s) && RunServer(s, incoming, ending).keys == Some(keys)
    ensures PortMessage(s.port).Some?
    ensures exists hello: Message, ack: Message, rest: Wire ::
              OnClientHello(s, hello) == Accept(keys) && Confirms(s, keys, incoming, hello, ack, rest)
  {
    var first := Read(incoming, ending);
    ReadGotFrame(incoming, ending);
    var second := Read(first.rest, ending);
    ReadGotFrame(first.rest, ending);
    ValuesConcat(Frame(first.m), first.rest);
    ValuesConcat(Frame(first.m), Frame(second.m) + second.rest);
    assert first.rest == incoming[|Frame(first.m)|..];
    assert second.m.data == first.rest[HEADER_SIZE..|Frame(second.m)|];
    assert Confirms(s, keys, incoming, first.m, second.m, second.rest);
  }

  /** Reading bytes with the values of a frame gives that frame's message with the cells
      that are there. */
  lemma ReadInPlace(w: Wire, m: Message, rest: Wire, ending: Ending)
    requires Sendable(m) && Values(w) == Values(Frame(m) + rest)
    ensures var g := Read(w, ending);
            g.Got? && g.m.kind == m.kind && Values(g.m.data) == Values(m.data) && Values(g.rest) == Values(rest) &&
            |w| >= |Frame(m)| && g.rest == w[|Frame(m)|..] && g.m.data == w[HEADER_SIZE..|Frame(m)|]
  {
    ReadFrame(m, rest, ending);
    ReadByValues(w, Frame(m) + rest, ending);
    var g := Read(w, ending);
    assert |g.m.data| == |Values(g.m.data)| == |Values(m.data)| == |m.data|;
  }

  lemma ServerAcceptsStream(
      s: Server, incoming: Wire, ending: Ending, keys: SessionKeys, hello: Message, ack: Message, rest: Wire)
    requires ServerReady(s) && OnClientHello(s, hello) == Accept(keys) && Confirms(s, keys, incoming, hello, ack, rest)
    ensures RunServer(s, incoming, ending).keys == if PortMessage(s.port).Some? then Some(keys) else None
  {
    ReadInPlace(incoming, hello, Frame(ack) + rest, ending);
    var first := Read(incoming, ending);
    ReadInPlace(first.rest, ack, rest, ending);
    var second := Read(first.rest, ending);
    assert second.m.data == ack.data;
    assert OnClientHello(s, first.m) == Accept(keys);
    assert FinishServer(s, keys, first.rest, ending).keys == if PortMessage(s.port).Some? then Some(keys) else None;
  }

  /** What the server writes: nothing, a refusal, or its hello, followed by the port
      exactly if it returns keys. */
  lemma ServerWrites(s: Server, incoming: Wire, ending: Ending)
    requires ServerReady(s)
    ensures var run, first := RunServer(s, incoming, ending), Read(incoming, ending);
            if first.Got? && OnClientHello(s, first.m).Refuse?
            then run.keys == None && Values(run.sent) == RefusalBytes(OnClientHello(s, first.m).text)
            else if first.Got? && OnClientHello(s, first.m).Accept?
            then (run.keys.Some? ==> 0 <= s.port < 65536) &&
                 Values(run.sent) == GreetingBytes(s) + if run.keys.Some? then PortBytes(s.port) else []
            else run == ServerRun(None, [])
  {
    LengthFits();
    var first := Read(incoming, ending);
    if first.Got? {
      var reply := OnClientHello(s, first.m);
      if reply.Refuse? {
        RefusalLayout(reply.text, 0);
      } else if reply.Accept? {
        GreetingLayout(s);
        PortLayout(s.port);
        ValuesConcat(Frame(ServerHelloMessage(s)), FinishServer(s, reply.keys, first.rest, ending).sent);
      }
    }
  }

  /** On any incoming bytes, the server returns keys only to a confirmation that was
      sealed under its own decryption key: no stream without such bytes succeeds. */
  lemma ServerNeedsSealedConfirmation(s: Server, incoming: Wire, ending: Ending)
    requires ServerReady(s) && RunServer(s, incoming, ending).keys.Some?
    ensures exists i: nat, nonce: ByteString :: i < |incoming| &&
              incoming[i].origin == Sealed(RunServer(s, incoming, ending).keys.value.decryptKey, nonce, CONFIRM, 0)
  {
    var keys := RunServer(s, incoming, ending).keys.value;
    var first := Read(incoming, ending);
    var ack := Read(first.rest, ending);
    DecryptExactly(keys.decryptKey, ack.m.data, CONFIRM);
    var nonce := Values(ack.m.data[..NONCE_SIZE]);
    var c := ack.m.data[NONCE_SIZE];
    assert c == ack.m.data[NONCE_SIZE..][0];
    assert c.origin == Sealed(keys.decryptKey, nonce, CONFIRM, 0);
    assert c == first.rest[HEADER_SIZE + NONCE_SIZE];
    var offset := |incoming| - |first.rest|;
    assert c == incoming[offset + HEADER_SIZE + NONCE_SIZE];
  }

  /** What a client run has written when it ends: its hello, and its confirmation if it
      got to derive keys. */
  lemma ClientWrites(c: Client, incoming: Wire, ending: Ending)
    requires ClientReady(c) && HelloMessage(c).Some?
    ensures var run := RunClient(c, incoming, ending);
            |Frame(HelloMessage(c).value)| == HELLO_FRAME &&
            run.sent == Frame(HelloMessage(c).value) +
                        if run.stored.Some? then Frame(AckMessage(c, run.stored.value)) else []
  {
    LengthFits();
    assert Frame(HelloMessage(c).value) + [] == Frame(HelloMessage(c).value);
  }

  /** The run when `connect` may fail and the connection may take only `room` bytes: it is
      cut off in the send that no longer fits. */
  function CutClient(run: ClientRun, connects: bool, room: Option<nat>): ClientRun {
    if !connects then ClientRun(Failed(HandshakeError), [], None)
    else if Fits(|run.sent|, room) then run
    else ClientRun(Failed(HandshakeError), run.sent[..room.value], if room.value < HELLO_FRAME then None else run.stored)
  }

  function Left(room: Option<nat>, n: nat): Option<nat>
    requires Fits(n, room)
  {
    if room.None? then None else Some(room.value - n)
  }

  /** What reaches the wire of `w`. */
  function Written(w: Wire, room: Option<nat>): Wire {
    if Fits(|w|, room) then w else w[..room.value]
  }

  lemma WrittenTwo(a: Wire, b: Wire, room: Option<nat>)
    requires Fits(|a|, room)
    ensures Written(a + b, room) == a + Written(b, Left(room, |a|))
    ensures Fits(|a + b|, room) <==> Fits(|b|, Left(room, |a|))
  {
  }

  /** The second half when the connection takes only `room` bytes: outcome and bytes. */
  function FinishWithin(c: Client, keys: SessionKeys, incoming: Wire, ending: Ending, room: Option<nat>): (Outcome, Wire)
    requires ClientReady(c)
  {
    LengthFits();
    var ack := Frame(AckMessage(c, keys));
    (if Fits(|ack|, room) then FinishClient(c, keys, [], incoming, ending).outcome else Failed(HandshakeError),
     Written(ack, room))
  }

  /** What follows the hello. */
  function ProceedWithin(c: Client, incoming: Wire, ending: Ending, room: Option<nat>): ClientRun
    requires ClientReady(c)
  {
    match HearHello(c, incoming, ending)
    case (Err(e), _) => ClientRun(Failed(e), [], None)
    case (Ok(keys), rest) =>
      var (outcome, bytes) := FinishWithin(c, keys, rest, ending, room);
      ClientRun(outcome, bytes, Some(keys))
  }

  /** The whole run, send by send. */
  function RunWithin(c: Client, incoming: Wire, ending: Ending, room: Option<nat>): ClientRun
    requires ClientReady(c)
  {
    LengthFits();
    match HelloMessage(c)
    case None => ClientRun(Failed(StructError), [], None)
    case Some(hello) =>
      var frame := Frame(hello);
      if !Fits(|frame|, room) then ClientRun(Failed(HandshakeError), Written(frame, room), None)
      else
        var more := ProceedWithin(c, incoming, ending, Left(room, |frame|));
        more.(sent := frame + more.sent)
  }

  lemma CutInHello(c: Client, incoming: Wire, ending: Ending, room: Option<nat>)
    requires ClientReady(c) && HelloMessage(c).Some? && !Fits(HELLO_FRAME, room)
    ensures RunWithin(c, incoming, ending, room) == CutClient(RunClient(c, incoming, ending), true, room)
  {
    ClientWrites(c, incoming, ending);
    var frame, run := Frame(HelloMessage(c).value), RunClient(c, incoming, ending);
    assert run.sent[..room.value] == frame[..room.value];
  }

  lemma CutAfterHello(c: Client, incoming: Wire, ending: Ending, room: Option<nat>)
    requires ClientReady(c) && HelloMessage(c).Some? && Fits(HELLO_FRAME, room) && HearHello(c, incoming, ending).0.Ok?
    ensures RunWithin(c, incoming, ending, room) == CutClient(RunClient(c, incoming, ending), true, room)
  {
    ClientWrites(c, incoming, ending);
    var frame, run := Frame(HelloMessage(c).value), RunClient(c, incoming, ending);
    assert run.stored == Some(HearHello(c, incoming, ending).0.value);
    WrittenTwo(frame, Frame(AckMessage(c, run.stored.value)), room);
  }

  /** Send by send, the run is the unlimited one, cut. */
  lemma RunWithinIsCut(c: Client, incoming: Wire, ending: Ending, room: Option<nat>)
    requires ClientReady(c)
    ensures RunWithin(c, incoming, ending, room) == CutClient(RunClient(c, incoming, ending), true, room)
  {
    if HelloMessage(c).Some? {
      ClientWrites(c, incoming, ending);
      if !Fits(HELLO_FRAME, room) {
        CutInHello(c, incoming, ending, room);
      } else if HearHello(c, incoming, ending).0.Ok? {
        CutAfterHello(c, incoming, ending, room);
      } else {
        assert Frame(HelloMessage(c).value) + [] == Frame(HelloMessage(c).value);
      }
    }
  }

  /** A server cut off in a send returns None, like one that fails in any other way. */
  function CutServer(run: ServerRun, room: Option<nat>): ServerRun {
    ServerRun(if Fits(|run.sent|, room) then run.keys else None, Written(run.sent, room))
  }

  lemma CutGreeting(s: Server, keys: SessionKeys, incoming: Wire, ending: Ending, room: Option<nat>)
    requires ServerReady(s) && |ServerHelloMessage(s).data| < Pow256(4)
    ensures var hello := Frame(ServerHelloMessage(s));
            var run := CutServer(GreetClient(s, keys, incoming, ending), room);
            if !Fits(|hello|, room) then run == ServerRun(None, Written(hello, room))
            else
              var more := CutServer(FinishServer(s, keys, incoming, ending), Left(room, |hello|));
              run == ServerRun(more.keys, hello + more.sent)
  {
    var hello, more := Frame(ServerHelloMessage(s)), FinishServer(s, keys, incoming, ending).sent;
    if Fits(|hello|, room) {
      WrittenTwo(hello, more, room);
    } else {
      assert (hello + more)[..room.value] == hello[..room.value];
    }
  }

  /** A result comes with its keys stored. */
  lemma ClientStores(c: Client, incoming: Wire, ending: Ending)
    requires ClientReady(c)
    ensures var run := RunClient(c, incoming, ending);
            run.outcome.Done? ==> run.stored == Some(run.outcome.keys) && 0 <= c.now < Pow256(8)
  {
    HelloLayout(c);
  }

  /** A client succeeds over a connection that takes only `room` bytes exactly if it would
      over one that lasts and both its messages fit; else it ends in HandshakeError in the
      send that does not fit, with its keys stored if that is the second. */
  lemma ClientCutExactly(c: Client, incoming: Wire, ending: Ending, connects: bool, room: Option<nat>)
    requires ClientReady(c)
    ensures var run := RunClient(c, incoming, ending);
            var cut := CutClient(run, connects, room);
            (cut.outcome.Done? <==> connects && run.outcome.Done? && (room.None? || room.value >= 96)) &&
            (cut.outcome.Done? ==> cut == run && Values(cut.sent) == HelloBytes(c) + AckBytes(c)) &&
            (!connects ==> cut == ClientRun(Failed(HandshakeError), [], None)) &&
            (connects && room.Some? && 0 <= c.now < Pow256(8) ==>
               if room.value < 46
               then cut.outcome == Failed(HandshakeError) && cut.stored == None && Values(cut.sent) == HelloBytes(c)[..room.value]
               else if room.value < 96 && run.stored.Some?
               then cut.outcome == Failed(HandshakeError) && cut.stored == run.stored &&
                    Values(cut.sent) == (HelloBytes(c) + AckBytes(c))[..room.value]
               else cut == run)
  {
    HelloLayout(c);
    if HelloMessage(c).Some? {
      ClientWrites(c, incoming, ending);
      var run := RunClient(c, incoming, ending);
      ClientBytes(c, run);
    }
  }

  /** What a run has written, as bytes. */
  lemma ClientBytes(c: Client, run: ClientRun)
    requires ClientReady(c) && HelloMessage(c).Some? && |HelloMessage(c).value.data| < Pow256(4)
    requires run.stored.Some? ==> |AckMessage(c, run.stored.value).data| < Pow256(4)
    requires run.sent == Frame(HelloMessage(c).value) +
                         if run.stored.Some? then Frame(AckMessage(c, run.stored.value)) else []
    ensures 0 <= c.now < Pow256(8) && |run.sent| == if run.stored.Some? then 96 else 46
    ensures Values(run.sent) == HelloBytes(c) + if run.stored.Some? then AckBytes(c) else []
    ensures forall n :: 0 <= n <= |run.sent| ==> Values(run.sent[..n]) == Values(run.sent)[..n]
    ensures forall n :: 0 <= n <= 46 ==> Values(run.sent)[..n] == HelloBytes(c)[..n]
  {
    HelloLayout(c);
    var hello := Frame(HelloMessage(c).value);
    assert |HelloBytes(c)| == 46 && |AckBytes(c)| == 50;
    if run.stored.Some? {
      AckLayout(c, run.stored.value);
      ValuesConcat(hello, Frame(AckMessage(c, run.stored.value)));
    } else {
      ValuesConcat(hello, []);
    }
    assert |Values(run.sent)| == |run.sent|;
  }

  /** A server returns keys over a connection that takes only `room` bytes exactly if it
      would over one that lasts and both its messages fit; and then it has written both. */
  lemma ServerCutExactly(s: Server, incoming: Wire, ending: Ending, room: Option<nat>)
    requires ServerReady(s)
    ensures var run := RunServer(s, incoming, ending);
            var cut := CutServer(run, room);
            (cut.keys.Some? <==> run.keys.Some? && (room.None? || room.value >= 76)) &&
            (cut.keys.Some? ==> cut.keys == run.keys && 0 <= s.port < 65536 &&
                                Values(cut.sent) == GreetingBytes(s) + PortBytes(s.port)) &&
            Values(cut.sent) == if Fits(|run.sent|, room) then Values(run.sent) else Values(run.sent)[..room.value]
  {
    ServerWrites(s, incoming, ending);
    var run := RunServer(s, incoming, ending);
    assert |Values(run.sent)| == |run.sent|;
    if run.keys.Some? {
      assert |GreetingBytes(s)| == 69 && |PortBytes(s.port)| == 7;
    }
    if room.Some? && room.value <= |run.sent| {
      assert Values(run.sent[..room.value]) == Values(run.sent)[..room.value];
    }
  }

  class HandshakeClient {
    const settings: Client
    var sessionKeys: Option<SessionKeys>

    constructor (settings: Client)
      ensures this.settings == settings && sessionKeys == None
    {
      this.settings, sessionKeys := settings, None;
    }

    /** `perform_handshake`; `connects` says whether `connect` succeeds. The socket is
        closed on every way out. */
    method PerformHandshake(sock: Socket, connects: bool) returns (r: Outcome)
      requires ClientReady(settings)
      modifies this`sessionKeys, sock
      ensures var run := CutClient(RunClient(settings, old(sock.incoming), sock.ending), connects, old(sock.room));
              r == run.outcome && sock.outgoing == old(sock.outgoing) + run.sent && sock.closed &&
              sessionKeys == if run.stored.Some? then run.stored else old(sessionKeys)
      ensures !connects ==> r == Failed(HandshakeError) && sock.outgoing == old(sock.outgoing)
      ensures r.Done? ==>
                sessionKeys == Some(r.keys) && 0 <= settings.now < Pow256(8) &&
                Values(sock.outgoing) == Values(old(sock.outgoing)) + (HelloBytes(settings) + AckBytes(settings))
    {
      ghost var cut := CutClient(RunClient(settings, sock.incoming, sock.ending), connects, sock.room);
      ClientCutExactly(settings, sock.incoming, sock.ending, connects, sock.room);
      ClientStores(settings, sock.incoming, sock.ending);
      ValuesConcat(sock.outgoing, cut.sent);
      r := Failed(HandshakeError);
      if connects {
        RunWithinIsCut(settings, sock.incoming, sock.ending, sock.room);
        r := Converse(sock);
      }
      sock.Close();
    }

    method Converse(sock: Socket) returns (r: Outcome)
      requires ClientReady(settings)
      modifies this`sessionKeys, sock`incoming, sock`outgoing, sock`room
      ensures var run := RunWithin(settings, old(sock.incoming), sock.ending, old(sock.room));
              r == run.outcome && sock.outgoing == old(sock.outgoing) + run.sent &&
              sessionKeys == if run.stored.Some? then run.stored else old(sessionKeys)
    {
      LengthFits();
      var hello := HelloMessage(settings);
      if hello.None? {
        return Failed(StructError);
      }
      var sent := sock.SendMessage(hello.value);
      if !sent {
        return Failed(HandshakeError);
      }
      r := Proceed(sock);
    }

    method Proceed(sock: Socket) returns (r: Outcome)
      requires ClientReady(settings)
      modifies this`sessionKeys, sock`incoming, sock`outgoing, sock`room
      ensures var run := ProceedWithin(settings, old(sock.incoming), sock.ending, old(sock.room));
              r == run.outcome && sock.outgoing == old(sock.outgoing) + run.sent &&
              sessionKeys == if run.stored.Some? then run.stored else old(sessionKeys)
    {
      var derived := Hear(sock);
      if derived.Err? {
        return Failed(derived.error);
      }
      sessionKeys := Some(derived.value);
      r := Finish(sock, derived.value);
    }

    method Hear(sock: Socket) returns (r: Result<SessionKeys>)
      modifies sock`incoming
      ensures (r, sock.incoming) == HearHello(settings, old(sock.incoming), sock.ending)
    {
      var answer := sock.RecvMessage();
      if answer.Fails? {
        return Err(ReadError(answer.why));
      }
      return OnServerHello(settings, answer.m);
    }

    /** The rest, from the derived keys on. */
    method Finish(sock: Socket, keys: SessionKeys) returns (r: Outcome)
      requires ClientReady(settings)
      modifies sock`incoming, sock`outgoing, sock`room
      ensures var (outcome, bytes) := FinishWithin(settings, keys, old(sock.incoming), sock.ending, old(sock.room));
              r == outcome && sock.outgoing == old(sock.outgoing) + bytes
    {
      LengthFits();
      var sent := sock.SendMessage(AckMessage(settings, keys));
      if !sent {
        return Failed(HandshakeError);
      }
      var final := sock.RecvMessage();
      if final.Fails? {
        return Failed(ReadError(final.why));
      }
      var port := OnFinal(final.m);
      if port.Err? {
        return Failed(port.error);
      }
      return Done(keys, port.value);
    }
  }

  class HandshakeServer {
    const settings: Server

    constructor (settings: Server)
      ensures this.settings == settings
    {
      this.settings := settings;
    }

    /** `handle_handshake`: the caller closes the socket. */
    method HandleHandshake(sock: Socket) returns (r: Option<SessionKeys>)
      requires ServerReady(settings)
      modifies sock`incoming, sock`outgoing, sock`room
      ensures var run := CutServer(RunServer(settings, old(sock.incoming), sock.ending), old(sock.room));
              r == run.keys && sock.outgoing == old(sock.outgoing) + run.sent
      ensures r.Some? ==>
                0 <= settings.port < 65536 &&
                Values(sock.outgoing) == Values(old(sock.outgoing)) + (GreetingBytes(settings) + PortBytes(settings.port))
    {
      LengthFits();
      ServerCutExactly(settings, sock.incoming, sock.ending, sock.room);
      ghost var cut := CutServer(RunServer(settings, sock.incoming, sock.ending), sock.room);
      ValuesConcat(sock.outgoing, cut.sent);
      var first := sock.RecvMessage();
      if first.Fails? {
        return None;
      }
      match OnClientHello(settings, first.m) {
        case Silent => return None;
        case Refuse(text) =>
          var _ := sock.SendMessage(RefusalMessage(text));
          return None;
        case Accept(keys) =>
          r := Greet(sock, keys);
      }
    }

    method Greet(sock: Socket, keys: SessionKeys) returns (r: Option<SessionKeys>)
      requires ServerReady(settings)
      modifies sock`incoming, sock`outgoing, sock`room
      ensures var run := CutServer(GreetClient(settings, keys, old(sock.incoming), sock.ending), old(sock.room));
              r == run.keys && sock.outgoing == old(sock.outgoing) + run.sent
    {
      LengthFits();
      var hello := ServerHelloMessage(settings);
      CutGreeting(settings, keys, sock.incoming, sock.ending, sock.room);
      var sent := sock.SendMessage(hello);
      if !sent {
        return None;
      }
      r := Confirm(sock, keys);
    }

    /** The rest, from the sent hello on. */
    method Confirm(sock: Socket, keys: SessionKeys) returns (r: Option<SessionKeys>)
      requires ServerReady(settings)
      modifies sock`incoming, sock`outgoing, sock`room
      ensures var run := CutServer(FinishServer(settings, keys, old(sock.incoming), sock.ending), old(sock.room));
              r == run.keys && sock.outgoing == old(sock.outgoing) + run.sent
    {
      LengthFits();
      var ack := sock.RecvMessage();
      if ack.Fails? || !AckAccepted(keys, ack.m) {
        return None;
      }
      var final := PortMessage(settings.port);
      if final.None? {
        return None;
      }
      var sent := sock.SendMessage(final.value);
      return if sent then Some(keys) else None;
    }
  }
}
