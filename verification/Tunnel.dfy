/** client/tunnel.py as concurrent workers: three threads in every client, two in the
    server, handlers that replace the server's keys, and a UDP network that loses,
    duplicates, reorders, reflects, splices and injects datagrams. Each step is one
    attribute access, one socket or TUN call, or one local computation. */
module Tunnel {
  import opened Bytes
  import opened Crypto

  const OVERHEAD := NONCE_SIZE + TAG_SIZE

  /** A successful handshake; client `i` uses session `i` of the list. */
  datatype Session = Session(client: ByteString, salt: ByteString)
  datatype World = World(server: ByteString, serverAddr: int, sessions: seq<Session>)

  /** The handshake never succeeds between equal public keys. */
  predicate WorldOk(w: World) {
    forall s :: 0 <= s < |w.sessions| ==> w.sessions[s].client != w.server
  }

  function ClientKeys(w: World, s: nat): SessionKeys
    requires s < |w.sessions|
  {
    DeriveSessionKeys(w.sessions[s].client, w.server, w.sessions[s].salt)
  }

  function ServerKeys(w: World, s: nat): SessionKeys
    requires s < |w.sessions|
  {
    DeriveSessionKeys(w.server, w.sessions[s].client, w.sessions[s].salt)
  }

  /** Who sent a datagram: a client's data thread, its keepalive thread, or the server
      under the keys of some session. */
  datatype Kind = Data(i: nat) | Keepalive(i: nat) | Reply(s: nat)

  datatype Entry = Entry(kind: Kind, nonce: ByteString, plain: ByteString, output: ByteString)

  function Index(k: Kind): nat {
    match k case Data(i) => i case Keepalive(i) => i case Reply(s) => s
  }

  function KeyOf(w: World, k: Kind): Key
    requires Index(k) < |w.sessions|
  {
    if k.Reply? then ServerKeys(w, k.s).encryptKey else ClientKeys(w, Index(k)).encryptKey
  }

  predicate EntryShape(w: World, e: Entry) {
    Index(e.kind) < |w.sessions| && SealInputs(e.nonce, e.plain, e.output)
  }

  function Datagram(w: World, e: Entry): (d: Wire)
    requires EntryShape(w, e)
    ensures |d| == |e.plain| + OVERHEAD
  {
    Encrypt(KeyOf(w, e.kind), e.nonce, e.plain, e.output)
  }

  // ------------------------------------------------------------------- threads

  /** `_tun_to_udp`; the last four points are the two `+=` as load and store. */
  datatype Up =
    | UpTop | UpRead | UpHave(p: ByteString) | UpEncrypt(p: ByteString) | UpSend(e: Entry)
    | UpLoadBytes(n: nat) | UpStoreBytes(v: nat) | UpLoadPackets | UpStorePackets(v: nat) | UpExit

  /** `_keepalive_loop`. */
  datatype Keep = KeepTop | KeepSleep | KeepEncrypt | KeepSend(e: Entry) | KeepExit

  /** A received datagram; `copy` is its place on the wire when the network delivered
      it as it was sent, None when the network made it up. */
  datatype Packet = Packet(d: Wire, from: int, copy: Option<nat>)

  /** `_udp_to_tun`. */
  datatype Down =
    | DownTop | DownWait | DownGot(r: Packet) | DownOpen(r: Packet) | DownWrite(p: ByteString, r: Packet)
    | DownLoadBytes(n: nat) | DownStoreBytes(v: nat) | DownLoadPackets | DownStorePackets(v: nat) | DownExit

  /** `_udp_receive_loop`; `s` is the session whose key opened the datagram. */
  datatype Rx =
    | RxTop | RxWait | RxGot(r: Packet) | RxTest(r: Packet) | RxOpen(r: Packet)
    | RxWrite(p: ByteString, r: Packet, s: nat) | RxLoad(n: nat) | RxStore(v: nat) | RxExit

  /** `_tun_read_loop`. */
  datatype Tx =
    | TxTop | TxRead | TxHave(p: ByteString) | TxAddress(p: ByteString) | TxEncrypt(p: ByteString) | TxSend(e: Entry)
    | TxLoad(n: nat) | TxStore(v: nat) | TxExit

  /** What stands behind a receive counter: the size of a datagram, and its copy. */
  datatype Taken = Taken(size: nat, copy: Option<nat>)

  /** A client: its flag, threads and counters, the packets its TUN handed out and
      took (with the source of the datagram), the sizes of the plaintexts it sent and the
      datagrams it wrote out. */
  datatype Client = Client(
    running: bool, up: Up, keep: Keep, down: Down,
    bytesSent: nat, packetsSent: nat, bytesReceived: nat, packetsReceived: nat,
    tunIn: set<ByteString>, tunOut: set<(ByteString, int)>, accepted: seq<nat>, counted: seq<Taken>)

  /** The server: `enc` and `dec` name the session each cipher was built for. */
  datatype Server = Server(
    running: bool, rx: Rx, tx: Tx, enc: Option<nat>, dec: Option<nat>, clientAddr: Option<int>,
    bytesReceived: nat, bytesSent: nat,
    tunIn: set<ByteString>, tunOut: set<(nat, ByteString)>, taken: seq<Taken>, replied: seq<nat>)

  datatype State = State(clients: seq<Client>, server: Server, wire: seq<Entry>)

  const FRESH_CLIENT: Client := Client(true, UpTop, KeepTop, DownTop, 0, 0, 0, 0, {}, {}, [], [])
  const FRESH_SERVER: Server := Server(true, RxTop, TxTop, None, None, None, 0, 0, {}, {}, [], [])

  function Start(w: World): State {
    State(seq(|w.sessions|, _ => FRESH_CLIENT), FRESH_SERVER, [])
  }

  /** What the environment answers to a step: a TUN packet, encryption randomness, a
      datagram, an exception, or nothing in particular. */
  datatype Input = Nothing | FromTun(p: ByteString) | Random(nonce: ByteString, output: ByteString) | Udp(r: Packet) | Raise

  datatype Action =
    | StepUp(i: nat, x: Input) | StepKeep(i: nat, x: Input) | StepDown(i: nat, x: Input)
    | StepRx(x: Input) | StepTx(x: Input)
    | InstallEncryptor(s: nat) | InstallDecryptor(s: nat)
    | StopClient(i: nat) | StopServer

  predicate OnWire(w: World, st: State, c: Cell) {
    exists k :: 0 <= k < |st.wire| && EntryShape(w, st.wire[k]) && c in Datagram(w, st.wire[k])
  }

  /** The network can copy bytes it has seen and write bytes of its own, in any
      arrangement, under any source address; it cannot seal. */
  predicate Deliverable(w: World, st: State, r: Packet) {
    && (forall j :: 0 <= j < |r.d| && r.d[j].origin.Sealed? ==> OnWire(w, st, r.d[j]))
    && (r.copy.Some? ==>
          r.copy.value < |st.wire| && EntryShape(w, st.wire[r.copy.value]) &&
          r.d == Datagram(w, st.wire[r.copy.value]))
  }

  predicate UpEnabled(up: Up, x: Input) {
    match up
    case UpRead => x.Nothing? || x.FromTun? || x.Raise?
    case UpEncrypt(p) => x.Raise? || (x.Random? && SealInputs(x.nonce, p, x.output))
    case UpSend(_) => x.Nothing? || x.Raise?
    case UpExit => false
    case _ => x.Nothing?
  }

  function UpNext(i: nat, c: Client, x: Input): Client
    requires UpEnabled(c.up, x)
  {
    if x.Raise? then c.(up := UpTop)
    else
      match c.up
      case UpTop => c.(up := if c.running then UpRead else UpExit)
      case UpRead => if x.Nothing? then c.(up := UpTop) else c.(tunIn := c.tunIn + {x.p}, up := UpHave(x.p))
      case UpHave(p) => c.(up := if p == [] then UpTop else UpEncrypt(p))
      case UpEncrypt(p) => c.(up := UpSend(Entry(Data(i), x.nonce, p, x.output)))
      case UpSend(e) => c.(accepted := c.accepted + [|e.plain|], up := UpLoadBytes(|e.plain| + OVERHEAD))
      case UpLoadBytes(n) => c.(up := UpStoreBytes(c.bytesSent + n))
      case UpStoreBytes(v) => c.(bytesSent := v, up := UpLoadPackets)
      case UpLoadPackets => c.(up := UpStorePackets(c.packetsSent + 1))
      case UpStorePackets(v) => c.(packetsSent := v, up := UpTop)
      case UpExit => c
  }

  predicate KeepEnabled(keep: Keep, x: Input) {
    match keep
    case KeepEncrypt => x.Raise? || (x.Random? && SealInputs(x.nonce, [], x.output))
    case KeepSend(_) => x.Nothing? || x.Raise?
    case KeepExit => false
    case _ => x.Nothing?
  }

  function KeepNext(i: nat, c: Client, x: Input): Client
    requires KeepEnabled(c.keep, x)
  {
    if x.Raise? then c.(keep := KeepTop)
    else
      match c.keep
      case KeepTop => c.(keep := if c.running then KeepSleep else KeepExit)
      case KeepSleep => c.(keep := if c.running then KeepEncrypt else KeepTop)
      case KeepEncrypt => c.(keep := KeepSend(Entry(Keepalive(i), x.nonce, [], x.output)))
      case KeepSend(_) => c.(keep := KeepTop)
      case KeepExit => c
  }

  predicate DownEnabled(w: World, st: State, down: Down, x: Input) {
    match down
    case DownWait => x.Nothing? || x.Raise? || (x.Udp? && Deliverable(w, st, x.r))
    case DownWrite(_, _) => x.Nothing? || x.Raise?
    case DownExit => false
    case _ => x.Nothing?
  }

  function DownNext(w: World, i: nat, c: Client, x: Input): Client
    requires i < |w.sessions|
    requires c.down.DownWait? ==> x.Nothing? || x.Raise? || x.Udp?
  {
    if x.Raise? then c.(down := DownTop)
    else
      match c.down
      case DownTop => c.(down := if c.running then DownWait else DownExit)
      case DownWait => if x.Nothing? then c.(down := DownTop) else c.(down := DownGot(x.r))
      case DownGot(r) => c.(down := if r.from == w.serverAddr then DownOpen(r) else DownTop)
      case DownOpen(r) =>
        (match Decrypt(ClientKeys(w, i).decryptKey, r.d)
         case None => c.(down := DownTop)
         case Some(p) => c.(down := if p == [] then DownTop else DownWrite(p, r)))
      case DownWrite(p, r) =>
        c.(tunOut := c.tunOut + {(p, r.from)}, counted := c.counted + [Taken(|r.d|, r.copy)], down := DownLoadBytes(|r.d|))
      case DownLoadBytes(n) => c.(down := DownStoreBytes(c.bytesReceived + n))
      case DownStoreBytes(v) => c.(bytesReceived := v, down := DownLoadPackets)
      case DownLoadPackets => c.(down := DownStorePackets(c.packetsReceived + 1))
      case DownStorePackets(v) => c.(packetsReceived := v, down := DownTop)
      case DownExit => c
  }

  predicate RxEnabled(w: World, st: State, x: Input) {
    match st.server.rx
    case RxWait => x.Nothing? || x.Raise? || (x.Udp? && Deliverable(w, st, x.r))
    case RxWrite(_, _, _) => x.Nothing? || x.Raise?
    case RxOpen(_) => x.Nothing? && st.server.dec.Some? && st.server.dec.value < |w.sessions|
    case RxExit => false
    case _ => x.Nothing?
  }

  /** The client address is replaced before anything is checked. */
  function RxNext(w: World, st: State, x: Input): Server
    requires RxEnabled(w, st, x)
  {
    var v := st.server;
    if x.Raise? then v.(rx := RxTop)
    else
      match v.rx
      case RxTop => v.(rx := if v.running then RxWait else RxExit)
      case RxWait => if x.Nothing? then v.(rx := RxTop) else v.(rx := RxGot(x.r))
      case RxGot(r) => v.(clientAddr := Some(r.from), rx := RxTest(r))
      case RxTest(r) => v.(rx := if v.dec.Some? then RxOpen(r) else RxTop)
      case RxOpen(r) =>
        (match Decrypt(ServerKeys(w, v.dec.value).decryptKey, r.d)
         case None => v.(rx := RxTop)
         case Some(p) => v.(rx := if p == [] then RxTop else RxWrite(p, r, v.dec.value)))
      case RxWrite(p, r, s) =>
        v.(tunOut := v.tunOut + {(s, p)}, taken := v.taken + [Taken(|r.d|, r.copy)], rx := RxLoad(|r.d|))
      case RxLoad(n) => v.(rx := RxStore(v.bytesReceived + n))
      case RxStore(t) => v.(bytesReceived := t, rx := RxTop)
      case RxExit => v
  }

  predicate TxEnabled(v: Server, x: Input) {
    match v.tx
    case TxRead => x.Nothing? || x.FromTun? || x.Raise?
    case TxEncrypt(p) => v.enc.Some? && (x.Raise? || (x.Random? && SealInputs(x.nonce, p, x.output)))
    case TxSend(_) => x.Nothing? || x.Raise?
    case TxExit => false
    case _ => x.Nothing?
  }

  function TxNext(v: Server, x: Input): Server
    requires TxEnabled(v, x)
  {
    if x.Raise? then v.(tx := TxTop)
    else
      match v.tx
      case TxTop => v.(tx := if v.running then TxRead else TxExit)
      case TxRead => if x.Nothing? then v.(tx := TxTop) else v.(tunIn := v.tunIn + {x.p}, tx := TxHave(x.p))
      case TxHave(p) => v.(tx := if p != [] && v.enc.Some? then TxAddress(p) else TxTop)
      case TxAddress(p) => v.(tx := if v.clientAddr.Some? then TxEncrypt(p) else TxTop)
      case TxEncrypt(p) => v.(tx := TxSend(Entry(Reply(v.enc.value), x.nonce, p, x.output)))
      case TxSend(e) => v.(replied := v.replied + [|e.plain|], tx := TxLoad(|e.plain| + OVERHEAD))
      case TxLoad(n) => v.(tx := TxStore(v.bytesSent + n))
      case TxStore(t) => v.(bytesSent := t, tx := TxTop)
      case TxExit => v
  }

  predicate Enabled(w: World, st: State, a: Action) {
    |st.clients| == |w.sessions| &&
    match a
    case StepUp(i, x) => i < |st.clients| && UpEnabled(st.clients[i].up, x)
    case StepKeep(i, x) => i < |st.clients| && KeepEnabled(st.clients[i].keep, x)
    case StepDown(i, x) => i < |st.clients| && DownEnabled(w, st, st.clients[i].down, x)
    case StepRx(x) => RxEnabled(w, st, x)
    case StepTx(x) => TxEnabled(st.server, x)
    case InstallEncryptor(s) => s < |w.sessions|
    case InstallDecryptor(s) => s < |w.sessions|
    case StopClient(i) => i < |st.clients|
    case StopServer => true
  }

  /** The datagram a step hands to `sendto`, if any. */
  function Emits(st: State, a: Action): seq<Entry>
    requires a.StepUp? || a.StepKeep? || a.StepDown? || a.StopClient? ==> a.i < |st.clients|
  {
    match a
    case StepUp(i, x) => if st.clients[i].up.UpSend? && x.Nothing? then [st.clients[i].up.e] else []
    case StepKeep(i, x) => if st.clients[i].keep.KeepSend? && x.Nothing? then [st.clients[i].keep.e] else []
    case StepTx(x) => if st.server.tx.TxSend? && x.Nothing? then [st.server.tx.e] else []
    case _ => []
  }

  function Apply(w: World, st: State, a: Action): State
    requires Enabled(w, st, a)
  {
    var next :=
      match a
      case StepUp(i, x) => st.(clients := st.clients[i := UpNext(i, st.clients[i], x)])
      case StepKeep(i, x) => st.(clients := st.clients[i := KeepNext(i, st.clients[i], x)])
      case StepDown(i, x) => st.(clients := st.clients[i := DownNext(w, i, st.clients[i], x)])
      case StepRx(x) => st.(server := RxNext(w, st, x))
      case StepTx(x) => st.(server := TxNext(st.server, x))
      case InstallEncryptor(s) => st.(server := st.server.(enc := Some(s)))
      case InstallDecryptor(s) => st.(server := st.server.(dec := Some(s)))
      case StopClient(i) => st.(clients := st.clients[i := st.clients[i].(running := false)])
      case StopServer => st.(server := st.server.(running := false));
    next.(wire := st.wire + Emits(st, a))
  }

  function Execute(w: World, schedule: seq<Action>): Option<State> {
    if schedule == [] then Some(Start(w))
    else
      var before := Execute(w, schedule[..|schedule| - 1]);
      var a := schedule[|schedule| - 1];
      if before.Some? && Enabled(w, before.value, a) then Some(Apply(w, before.value, a)) else None
  }

  /** Only a client's data thread reads its TUN. */
  lemma KeepsReadings(w: World, st: State, a: Action, i: nat)
    requires Enabled(w, st, a) && i < |st.clients| && (a.StepUp? ==> a.i != i)
    ensures |Apply(w, st, a).clients| == |st.clients| && Apply(w, st, a).clients[i].tunIn == st.clients[i].tunIn
  {
  }

  /** Only installs change the server's ciphers. */
  lemma StepCiphers(w: World, st: State, a: Action)
    requires Enabled(w, st, a)
    ensures Apply(w, st, a).server.enc == if a.InstallEncryptor? then Some(a.s) else st.server.enc
    ensures Apply(w, st, a).server.dec == if a.InstallDecryptor? then Some(a.s) else st.server.dec
  {
  }

  // --------------------------------------------------------------- provenance

  /** A datagram on the wire carries a packet its sender read from its own TUN, or is
      an empty keepalive. */
  predicate EntryOk(w: World, st: State, e: Entry) {
    EntryShape(w, e) && |st.clients| == |w.sessions| &&
    match e.kind
    case Data(i) => e.plain != [] && e.plain in st.clients[i].tunIn
    case Keepalive(_) => e.plain == []
    case Reply(_) => e.plain != [] && e.plain in st.server.tunIn
  }

  /** Some client with the keys of session `s` read `p` from its TUN. */
  predicate ReadByClient(w: World, st: State, s: nat, p: ByteString) {
    |st.clients| == |w.sessions| && s < |w.sessions| &&
    exists i :: 0 <= i < |st.clients| && ClientKeys(w, i) == ClientKeys(w, s) && p in st.clients[i].tunIn
  }

  predicate UpOk(w: World, st: State, i: nat)
    requires i < |st.clients|
  {
    match st.clients[i].up
    case UpHave(p) => p in st.clients[i].tunIn
    case UpEncrypt(p) => p != [] && p in st.clients[i].tunIn
    case UpSend(e) => e.kind == Data(i) && EntryOk(w, st, e)
    case _ => true
  }

  predicate KeepOk(w: World, st: State, i: nat)
    requires i < |st.clients|
  {
    var keep := st.clients[i].keep;
    keep.KeepSend? ==> keep.e.kind == Keepalive(i) && EntryOk(w, st, keep.e)
  }

  /** The server has encrypted `p` for the session of client `i`. */
  predicate RepliedTo(w: World, st: State, i: nat, p: ByteString) {
    i < |w.sessions| &&
    exists k :: 0 <= k < |st.wire| && st.wire[k].kind.Reply? && st.wire[k].kind.s < |w.sessions| &&
                w.sessions[st.wire[k].kind.s] == w.sessions[i] && st.wire[k].plain == p
  }

  predicate DownOk(w: World, st: State, i: nat)
    requires i < |st.clients|
  {
    match st.clients[i].down
    case DownGot(r) => Deliverable(w, st, r)
    case DownOpen(r) => Deliverable(w, st, r) && r.from == w.serverAddr
    case DownWrite(p, r) => p != [] && p in st.server.tunIn && RepliedTo(w, st, i, p) && r.from == w.serverAddr
    case _ => true
  }

  /** All the client wrote is non-empty, came under the server's address, was read from
      the server's TUN and encrypted by the server for the client's own session. */
  predicate ClientWroteOnly(w: World, st: State, i: nat)
    requires i < |st.clients|
  {
    forall t :: t in st.clients[i].tunOut ==>
      t.0 != [] && t.0 in st.server.tunIn && RepliedTo(w, st, i, t.0) && t.1 == w.serverAddr
  }

  predicate ClientOk(w: World, st: State, i: nat)
    requires i < |st.clients|
  {
    UpOk(w, st, i) && KeepOk(w, st, i) && DownOk(w, st, i) && ClientWroteOnly(w, st, i)
  }

  predicate RxOk(w: World, st: State) {
    match st.server.rx
    case RxGot(r) => Deliverable(w, st, r)
    case RxTest(r) => Deliverable(w, st, r)
    case RxOpen(r) => Deliverable(w, st, r) && st.server.dec.Some?
    case RxWrite(p, _, s) => p != [] && ReadByClient(w, st, s, p)
    case _ => true
  }

  predicate TxOk(w: World, st: State) {
    var v := st.server;
    match v.tx
    case TxHave(p) => p in v.tunIn
    case TxAddress(p) => p != [] && p in v.tunIn && v.enc.Some?
    case TxEncrypt(p) => p != [] && p in v.tunIn && v.enc.Some?
    case TxSend(e) => e.kind.Reply? && EntryOk(w, st, e)
    case _ => true
  }

  predicate WrittenOk(w: World, st: State) {
    forall t :: t in st.server.tunOut ==> t.1 != [] && ReadByClient(w, st, t.0, t.1)
  }

  predicate CiphersOk(w: World, v: Server) {
    (v.enc.Some? ==> v.enc.value < |w.sessions|) && (v.dec.Some? ==> v.dec.value < |w.sessions|)
  }

  predicate ServerOk(w: World, st: State) {
    CiphersOk(w, st.server) && RxOk(w, st) && TxOk(w, st) && WrittenOk(w, st)
  }

  predicate Provenance(w: World, st: State) {
    && |st.clients| == |w.sessions|
    && (forall k :: 0 <= k < |st.wire| ==> EntryOk(w, st, st.wire[k]))
    && (forall i :: 0 <= i < |st.clients| ==> ClientOk(w, st, i))
    && ServerOk(w, st)
  }

  /** The histories only grow. */
  predicate Grows(st: State, after: State) {
    && |after.clients| == |st.clients|
    && (forall i :: 0 <= i < |st.clients| ==> st.clients[i].tunIn <= after.clients[i].tunIn)
    && st.server.tunIn <= after.server.tunIn
    && |st.wire| <= |after.wire|
    && (forall k :: 0 <= k < |st.wire| ==> after.wire[k] == st.wire[k])
  }

  lemma DeliverableGrows(w: World, st: State, after: State, r: Packet)
    requires Grows(st, after) && Deliverable(w, st, r)
    ensures Deliverable(w, after, r)
  {
    forall j | 0 <= j < |r.d| && r.d[j].origin.Sealed?
      ensures OnWire(w, after, r.d[j])
    {
      var k :| 0 <= k < |st.wire| && EntryShape(w, st.wire[k]) && r.d[j] in Datagram(w, st.wire[k]);
      assert after.wire[k] == st.wire[k];
    }
  }

  lemma ReadByClientGrows(w: World, st: State, after: State, s: nat, p: ByteString)
    requires Grows(st, after) && ReadByClient(w, st, s, p)
    ensures ReadByClient(w, after, s, p)
  {
    var i :| 0 <= i < |st.clients| && ClientKeys(w, i) == ClientKeys(w, s) && p in st.clients[i].tunIn;
    assert p in after.clients[i].tunIn;
  }

  lemma UpOkGrows(w: World, st: State, after: State, i: nat)
    requires Grows(st, after) && i < |st.clients| && UpOk(w, st, i) && st.clients[i].up == after.clients[i].up
    ensures UpOk(w, after, i)
  {
  }

  lemma KeepOkGrows(w: World, st: State, after: State, i: nat)
    requires Grows(st, after) && i < |st.clients| && KeepOk(w, st, i) && st.clients[i].keep == after.clients[i].keep
    ensures KeepOk(w, after, i)
  {
  }

  lemma RepliedToGrows(w: World, st: State, after: State, i: nat, p: ByteString)
    requires Grows(st, after) && RepliedTo(w, st, i, p)
    ensures RepliedTo(w, after, i, p)
  {
    var k :| 0 <= k < |st.wire| && st.wire[k].kind.Reply? && st.wire[k].kind.s < |w.sessions| &&
             w.sessions[st.wire[k].kind.s] == w.sessions[i] && st.wire[k].plain == p;
    assert after.wire[k] == st.wire[k];
  }

  lemma ClientWroteGrows(w: World, st: State, after: State, i: nat)
    requires Grows(st, after) && i < |st.clients| && ClientWroteOnly(w, st, i) && st.clients[i].tunOut == after.clients[i].tunOut
    ensures ClientWroteOnly(w, after, i)
  {
    forall t | t in st.clients[i].tunOut
      ensures RepliedTo(w, after, i, t.0)
    {
      RepliedToGrows(w, st, after, i, t.0);
    }
  }

  lemma DownOkGrows(w: World, st: State, after: State, i: nat)
    requires Grows(st, after) && i < |st.clients| && DownOk(w, st, i) && st.clients[i].down == after.clients[i].down
    ensures DownOk(w, after, i)
  {
    match st.clients[i].down {
      case DownGot(r) => DeliverableGrows(w, st, after, r);
      case DownOpen(r) => DeliverableGrows(w, st, after, r);
      case DownWrite(p, r) => RepliedToGrows(w, st, after, i, p);
      case _ =>
    }
  }

  lemma ClientOkGrows(w: World, st: State, after: State, i: nat)
    requires Grows(st, after) && i < |st.clients| && ClientOk(w, st, i)
    requires var c, d := st.clients[i], after.clients[i];
             c.up == d.up && c.keep == d.keep && c.down == d.down && c.tunOut == d.tunOut
    ensures ClientOk(w, after, i)
  {
    UpOkGrows(w, st, after, i);
    KeepOkGrows(w, st, after, i);
    DownOkGrows(w, st, after, i);
    ClientWroteGrows(w, st, after, i);
  }

  lemma RxOkGrows(w: World, st: State, after: State)
    requires Grows(st, after) && RxOk(w, st)
    requires st.server.rx == after.server.rx && (st.server.dec.Some? ==> after.server.dec.Some?)
    ensures RxOk(w, after)
  {
    match st.server.rx {
      case RxGot(r) => DeliverableGrows(w, st, after, r);
      case RxTest(r) => DeliverableGrows(w, st, after, r);
      case RxOpen(r) => DeliverableGrows(w, st, after, r);
      case RxWrite(p, r, s) => ReadByClientGrows(w, st, after, s, p);
      case _ =>
    }
  }

  lemma TxOkGrows(w: World, st: State, after: State)
    requires Grows(st, after) && TxOk(w, st)
    requires st.server.tx == after.server.tx && (st.server.enc.Some? ==> after.server.enc.Some?)
    ensures TxOk(w, after)
  {
  }

  lemma WrittenOkGrows(w: World, st: State, after: State)
    requires Grows(st, after) && WrittenOk(w, st) && st.server.tunOut == after.server.tunOut
    ensures WrittenOk(w, after)
  {
    forall t | t in st.server.tunOut
      ensures ReadByClient(w, after, t.0, t.1)
    {
      ReadByClientGrows(w, st, after, t.0, t.1);
    }
  }

  /** Whatever opens under a key is one whole datagram on the wire, sealed under that
      key: splicing and injection gain nothing. */
  lemma OpenedIsOnWire(w: World, st: State, key: Key, r: Packet) returns (k: nat)
    requires Deliverable(w, st, r) && Decrypt(key, r.d).Some?
    ensures k < |st.wire| && EntryShape(w, st.wire[k])
    ensures KeyOf(w, st.wire[k].kind) == key && Decrypt(key, r.d) == Some(st.wire[k].plain)
    ensures r.copy.Some? ==> k == r.copy.value
  {
    var c := r.d[NONCE_SIZE];
    assert c == r.d[NONCE_SIZE..][0];
    assert c.origin.Sealed?;
    assert OnWire(w, st, c);
    if r.copy.Some? {
      k := r.copy.value;
      assert c in Datagram(w, st.wire[k]);
    } else {
      k :| 0 <= k < |st.wire| && EntryShape(w, st.wire[k]) && c in Datagram(w, st.wire[k]);
    }
    var d := Datagram(w, st.wire[k]);
    var j :| 0 <= j < |d| && d[j] == c;
    assert j >= NONCE_SIZE;
  }

  /** What the server opens under a session was read by a client of that session. */
  lemma ServerOpens(w: World, st: State, s: nat, r: Packet)
    requires WorldOk(w) && Provenance(w, st) && s < |w.sessions| && Deliverable(w, st, r)
    requires var p := Decrypt(ServerKeys(w, s).decryptKey, r.d); p.Some? && p.value != []
    ensures ReadByClient(w, st, s, Decrypt(ServerKeys(w, s).decryptKey, r.d).value)
    ensures r.copy.Some? ==> st.wire[r.copy.value].kind.Data?
    ensures r.copy.Some? ==> |r.d| == |st.wire[r.copy.value].plain| + OVERHEAD
  {
    var session := w.sessions[s];
    DirectionsMirror(session.client, w.server, session.salt, session.salt);
    var k := OpenedIsOnWire(w, st, ServerKeys(w, s).decryptKey, r);
    var e := st.wire[k];
    assert EntryOk(w, st, e);
    if e.kind.Reply? {
      var other := w.sessions[e.kind.s];
      DirectionsNeverMeet(w.server, session.client, other.client, session.salt, other.salt);
      assert false;
    } else {
      SameEncryptKey(w, e.kind.i, s);
    }
  }

  lemma SameEncryptKey(w: World, i: nat, s: nat)
    requires WorldOk(w) && i < |w.sessions| && s < |w.sessions|
    requires ClientKeys(w, i).encryptKey == ClientKeys(w, s).encryptKey
    ensures w.sessions[i] == w.sessions[s]
    ensures ClientKeys(w, i) == ClientKeys(w, s)
  {
    assert w.sessions[i].client in Exchange(w.sessions[s].client, w.server);
    assert w.sessions[s].client in Exchange(w.sessions[i].client, w.server);
  }

  /** What a client opens was read from the server's TUN and encrypted for this client's
      session; a datagram of any client, its own included, never opens at a client. */
  lemma ClientOpens(w: World, st: State, i: nat, r: Packet)
    requires WorldOk(w) && Provenance(w, st) && i < |w.sessions| && Deliverable(w, st, r)
    requires Decrypt(ClientKeys(w, i).decryptKey, r.d).Some?
    ensures Decrypt(ClientKeys(w, i).decryptKey, r.d).value in st.server.tunIn
    ensures Decrypt(ClientKeys(w, i).decryptKey, r.d).value != []
    ensures RepliedTo(w, st, i, Decrypt(ClientKeys(w, i).decryptKey, r.d).value)
    ensures r.copy.Some? ==> st.wire[r.copy.value].kind.Reply? && |r.d| == |st.wire[r.copy.value].plain| + OVERHEAD
  {
    var session := w.sessions[i];
    DirectionsMirror(session.client, w.server, session.salt, session.salt);
    var k := OpenedIsOnWire(w, st, ClientKeys(w, i).decryptKey, r);
    var e := st.wire[k];
    assert EntryOk(w, st, e);
    if !e.kind.Reply? {
      var other := w.sessions[e.kind.i];
      DirectionsNeverMeet(w.server, other.client, session.client, other.salt, session.salt);
      assert false;
    } else {
      SameServerKey(w, e.kind.s, i);
    }
  }

  /** Delivered as it was sent, a datagram opens at the server exactly if a client of
      the session in use sent it, and then to what that client encrypted. */
  lemma OpensAtServer(w: World, e: Entry, s: nat)
    requires WorldOk(w) && EntryShape(w, e) && s < |w.sessions|
    ensures Decrypt(ServerKeys(w, s).decryptKey, Datagram(w, e)) ==
            if !e.kind.Reply? && w.sessions[Index(e.kind)] == w.sessions[s] then Some(e.plain) else None
  {
    var session, other := w.sessions[s], w.sessions[Index(e.kind)];
    DirectionsMirror(session.client, w.server, session.salt, session.salt);
    DecryptEncrypt(KeyOf(w, e.kind), ServerKeys(w, s).decryptKey, e.nonce, e.plain, e.output);
    if e.kind.Reply? {
      DirectionsNeverMeet(w.server, session.client, other.client, session.salt, other.salt);
    } else if KeyOf(w, e.kind) == ClientKeys(w, s).encryptKey {
      SameEncryptKey(w, Index(e.kind), s);
    }
  }

  /** And at a client exactly if the server sent it under that client's session: a
      datagram of any client, reflected, its own included, is rejected. */
  lemma OpensAtClient(w: World, e: Entry, i: nat)
    requires WorldOk(w) && EntryShape(w, e) && i < |w.sessions|
    ensures Decrypt(ClientKeys(w, i).decryptKey, Datagram(w, e)) ==
            if e.kind.Reply? && w.sessions[e.kind.s] == w.sessions[i] then Some(e.plain) else None
  {
    var session, other := w.sessions[i], w.sessions[Index(e.kind)];
    DirectionsMirror(session.client, w.server, session.salt, session.salt);
    DecryptEncrypt(KeyOf(w, e.kind), ClientKeys(w, i).decryptKey, e.nonce, e.plain, e.output);
    if !e.kind.Reply? {
      DirectionsNeverMeet(w.server, other.client, session.client, other.salt, session.salt);
    } else if KeyOf(w, e.kind) == ServerKeys(w, i).encryptKey {
      SameServerKey(w, e.kind.s, i);
    }
  }

  lemma SameServerKey(w: World, i: nat, s: nat)
    requires WorldOk(w) && i < |w.sessions| && s < |w.sessions|
    requires ServerKeys(w, i).encryptKey == ServerKeys(w, s).encryptKey
    ensures w.sessions[i] == w.sessions[s]
  {
    assert w.sessions[i].client in Exchange(w.server, w.sessions[s].client);
    assert w.sessions[s].client in Exchange(w.server, w.sessions[i].client);
  }

  /** The other clients, the server and the wire keep their part of the invariant when
      one client takes a step. */
  lemma ClientStepFrame(w: World, st: State, i: nat, c: Client, sent: seq<Entry>)
    requires Provenance(w, st) && i < |st.clients| && st.clients[i].tunIn <= c.tunIn && |sent| <= 1
    requires var after := st.(clients := st.clients[i := c], wire := st.wire + sent);
             ClientOk(w, after, i) && (sent != [] ==> EntryOk(w, after, sent[0]))
    ensures Provenance(w, st.(clients := st.clients[i := c], wire := st.wire + sent))
  {
    var after := st.(clients := st.clients[i := c], wire := st.wire + sent);
    assert Grows(st, after);
    RxOkGrows(w, st, after);
    TxOkGrows(w, st, after);
    WrittenOkGrows(w, st, after);
    forall j | 0 <= j < |after.clients|
      ensures ClientOk(w, after, j)
    {
      if j != i {
        ClientOkGrows(w, st, after, j);
      }
    }
    forall k | 0 <= k < |after.wire|
      ensures EntryOk(w, after, after.wire[k])
    {
      if k < |st.wire| {
        assert EntryOk(w, st, st.wire[k]);
      }
    }
  }

  lemma UpNextOk(w: World, st: State, i: nat, x: Input)
    requires i < |st.clients| == |w.sessions| && UpOk(w, st, i) && UpEnabled(st.clients[i].up, x)
    ensures UpOk(w, st.(clients := st.clients[i := UpNext(i, st.clients[i], x)]), i)
  {
  }

  lemma UpTouches(i: nat, c: Client, x: Input)
    requires UpEnabled(c.up, x)
    ensures var d := UpNext(i, c, x);
            c.tunIn <= d.tunIn && d.keep == c.keep && d.down == c.down && d.tunOut == c.tunOut
  {
  }

  lemma UpKeeps(w: World, st: State, i: nat, x: Input)
    requires Provenance(w, st) && Enabled(w, st, StepUp(i, x))
    ensures Provenance(w, Apply(w, st, StepUp(i, x)))
  {
    var c := UpNext(i, st.clients[i], x);
    var sent := Emits(st, StepUp(i, x));
    var moved := st.(clients := st.clients[i := c]);
    var after := moved.(wire := st.wire + sent);
    assert ClientOk(w, st, i);
    UpNextOk(w, st, i, x);
    UpTouches(i, st.clients[i], x);
    UpOkGrows(w, moved, after, i);
    KeepOkGrows(w, st, after, i);
    DownOkGrows(w, st, after, i);
    ClientWroteGrows(w, st, after, i);
    ClientStepFrame(w, st, i, c, sent);
  }

  lemma KeepKeeps(w: World, st: State, i: nat, x: Input)
    requires Provenance(w, st) && Enabled(w, st, StepKeep(i, x))
    ensures Provenance(w, Apply(w, st, StepKeep(i, x)))
  {
    var c := KeepNext(i, st.clients[i], x);
    var sent := Emits(st, StepKeep(i, x));
    var after := st.(clients := st.clients[i := c], wire := st.wire + sent);
    assert ClientOk(w, st, i);
    KeepNextOk(w, st, i, x);
    UpOkGrows(w, st, after, i);
    DownOkGrows(w, st, after, i);
    ClientWroteGrows(w, st, after, i);
    ClientStepFrame(w, st, i, c, sent);
  }

  lemma KeepNextOk(w: World, st: State, i: nat, x: Input)
    requires i < |st.clients| == |w.sessions| && KeepEnabled(st.clients[i].keep, x)
    ensures var d := KeepNext(i, st.clients[i], x);
            d == st.clients[i].(keep := d.keep) && KeepOk(w, st.(clients := st.clients[i := d]), i)
  {
  }

  /** The receive thread opens only what the server sealed for this client. */
  lemma DownNextOk(w: World, st: State, i: nat, x: Input)
    requires WorldOk(w) && Provenance(w, st) && Enabled(w, st, StepDown(i, x))
    ensures DownOk(w, st.(clients := st.clients[i := DownNext(w, i, st.clients[i], x)]), i)
  {
    var c := st.clients[i];
    var d := DownNext(w, i, c, x);
    var after := st.(clients := st.clients[i := d]);
    assert ClientOk(w, st, i);
    match d.down {
      case DownGot(r) => DeliverableStays(w, st, after, r);
      case DownOpen(r) => DeliverableStays(w, st, after, r);
      case DownWrite(p, r) =>
        ClientOpens(w, st, i, r);
        RepliedToStays(w, st, after, i, p);
      case _ =>
    }
  }

  /** And only writes what it opened. */
  lemma DownWrites(w: World, st: State, i: nat, x: Input)
    requires WorldOk(w) && Provenance(w, st) && Enabled(w, st, StepDown(i, x))
    ensures ClientWroteOnly(w, st.(clients := st.clients[i := DownNext(w, i, st.clients[i], x)]), i)
  {
    var d := DownNext(w, i, st.clients[i], x);
    var after := st.(clients := st.clients[i := d]);
    assert ClientOk(w, st, i);
    forall t | t in d.tunOut
      ensures t.0 != [] && t.0 in st.server.tunIn && RepliedTo(w, after, i, t.0) && t.1 == w.serverAddr
    {
      assert RepliedTo(w, st, i, t.0);
      RepliedToStays(w, st, after, i, t.0);
    }
  }

  lemma RepliedToStays(w: World, st: State, after: State, i: nat, p: ByteString)
    requires RepliedTo(w, st, i, p) && after.wire == st.wire
    ensures RepliedTo(w, after, i, p)
  {
  }

  lemma DeliverableStays(w: World, st: State, after: State, r: Packet)
    requires Deliverable(w, st, r) && after.wire == st.wire
    ensures Deliverable(w, after, r)
  {
    forall j | 0 <= j < |r.d| && r.d[j].origin.Sealed?
      ensures OnWire(w, after, r.d[j])
    {
      assert OnWire(w, st, r.d[j]);
    }
  }

  lemma DownTouches(w: World, st: State, i: nat, x: Input)
    requires Enabled(w, st, StepDown(i, x))
    ensures var c, d := st.clients[i], DownNext(w, i, st.clients[i], x);
            d.tunIn == c.tunIn && d.up == c.up && d.keep == c.keep
  {
  }

  lemma DownKeeps(w: World, st: State, i: nat, x: Input)
    requires WorldOk(w) && Provenance(w, st) && Enabled(w, st, StepDown(i, x))
    ensures Provenance(w, Apply(w, st, StepDown(i, x)))
  {
    var c := DownNext(w, i, st.clients[i], x);
    var after := st.(clients := st.clients[i := c], wire := st.wire + []);
    assert ClientOk(w, st, i);
    DownNextOk(w, st, i, x);
    DownWrites(w, st, i, x);
    DownTouches(w, st, i, x);
    assert after == st.(clients := st.clients[i := c]);
    UpOkGrows(w, st, after, i);
    KeepOkGrows(w, st, after, i);
    ClientStepFrame(w, st, i, c, []);
  }

  lemma ServerStepFrame(w: World, st: State, v: Server, sent: seq<Entry>)
    requires Provenance(w, st) && st.server.tunIn <= v.tunIn && |sent| <= 1
    requires var after := st.(server := v, wire := st.wire + sent);
             ServerOk(w, after) && (sent != [] ==> EntryOk(w, after, sent[0]))
    ensures Provenance(w, st.(server := v, wire := st.wire + sent))
  {
    var after := st.(server := v, wire := st.wire + sent);
    assert Grows(st, after);
    forall j | 0 <= j < |after.clients|
      ensures ClientOk(w, after, j)
    {
      ClientOkGrows(w, st, after, j);
    }
    forall k | 0 <= k < |after.wire|
      ensures EntryOk(w, after, after.wire[k])
    {
      if k < |st.wire| {
        assert EntryOk(w, st, st.wire[k]);
      }
    }
  }

  /** The receive thread opens only what a client of the current session read. */
  lemma RxNextOk(w: World, st: State, x: Input)
    requires WorldOk(w) && Provenance(w, st) && Enabled(w, st, StepRx(x))
    ensures RxOk(w, st.(server := RxNext(w, st, x)))
  {
    var after := st.(server := RxNext(w, st, x));
    assert Grows(st, after);
    match st.server.rx {
      case RxWait => if x.Udp? { DeliverableGrows(w, st, after, x.r); }
      case RxGot(r) => DeliverableGrows(w, st, after, r);
      case RxTest(r) => DeliverableGrows(w, st, after, r);
      case RxOpen(r) =>
        var s := st.server.dec.value;
        var p := Decrypt(ServerKeys(w, s).decryptKey, r.d);
        if p.Some? && p.value != [] {
          ServerOpens(w, st, s, r);
          ReadByClientGrows(w, st, after, s, p.value);
        }
      case _ =>
    }
  }

  lemma RxWrites(w: World, st: State, x: Input)
    requires Provenance(w, st) && Enabled(w, st, StepRx(x))
    ensures WrittenOk(w, st.(server := RxNext(w, st, x)))
  {
    var after := st.(server := RxNext(w, st, x));
    assert Grows(st, after);
    WrittenOkGrows(w, st, after.(server := after.server.(tunOut := st.server.tunOut)));
  }

  lemma RxKeeps(w: World, st: State, x: Input)
    requires WorldOk(w) && Provenance(w, st) && Enabled(w, st, StepRx(x))
    ensures Provenance(w, Apply(w, st, StepRx(x)))
  {
    var v := RxNext(w, st, x);
    var after := st.(server := v);
    assert after.wire + [] == after.wire;
    RxNextOk(w, st, x);
    RxWrites(w, st, x);
    TxOkGrows(w, st, after);
    ServerStepFrame(w, st, v, []);
  }

  lemma TxNextOk(w: World, st: State, x: Input)
    requires Provenance(w, st) && Enabled(w, st, StepTx(x))
    ensures var after := st.(server := TxNext(st.server, x), wire := st.wire + Emits(st, StepTx(x)));
            TxOk(w, after) && (st.server.tx.TxSend? ==> EntryOk(w, after, st.server.tx.e))
  {
  }

  lemma TxKeeps(w: World, st: State, x: Input)
    requires Provenance(w, st) && Enabled(w, st, StepTx(x))
    ensures Provenance(w, Apply(w, st, StepTx(x)))
  {
    var v := TxNext(st.server, x);
    var sent := Emits(st, StepTx(x));
    var after := st.(server := v, wire := st.wire + sent);
    assert Grows(st, after);
    TxNextOk(w, st, x);
    RxOkGrows(w, st, after);
    WrittenOkGrows(w, st, after);
    ServerStepFrame(w, st, v, sent);
  }

  /** Key installs and the stop flag touch nothing the invariant is about. */
  lemma SwitchKeeps(w: World, st: State, v: Server)
    requires Provenance(w, st) && CiphersOk(w, v)
    requires v == st.server.(running := v.running, enc := v.enc, dec := v.dec)
    requires (st.server.enc.Some? ==> v.enc.Some?) && (st.server.dec.Some? ==> v.dec.Some?)
    ensures Provenance(w, st.(server := v, wire := st.wire + []))
  {
    var after := st.(server := v, wire := st.wire + []);
    assert Grows(st, after);
    RxOkGrows(w, st, after);
    TxOkGrows(w, st, after);
    WrittenOkGrows(w, st, after);
    ServerStepFrame(w, st, v, []);
  }

  lemma StopKeeps(w: World, st: State, i: nat)
    requires Provenance(w, st) && Enabled(w, st, StopClient(i))
    ensures Provenance(w, Apply(w, st, StopClient(i)))
  {
    var c := st.clients[i].(running := false);
    var after := st.(clients := st.clients[i := c], wire := st.wire + []);
    assert Grows(st, after);
    ClientOkGrows(w, st, after, i);
    ClientStepFrame(w, st, i, c, []);
  }

  lemma StepKeepsProvenance(w: World, st: State, a: Action)
    requires WorldOk(w) && Provenance(w, st) && Enabled(w, st, a)
    ensures Provenance(w, Apply(w, st, a))
  {
    match a {
      case StepUp(i, x) => UpKeeps(w, st, i, x);
      case StepKeep(i, x) => KeepKeeps(w, st, i, x);
      case StepDown(i, x) => DownKeeps(w, st, i, x);
      case StepRx(x) => RxKeeps(w, st, x);
      case StepTx(x) => TxKeeps(w, st, x);
      case StopClient(i) => StopKeeps(w, st, i);
      case InstallEncryptor(s) => SwitchKeeps(w, st, st.server.(enc := Some(s)));
      case InstallDecryptor(s) => SwitchKeeps(w, st, st.server.(dec := Some(s)));
      case StopServer => SwitchKeeps(w, st, st.server.(running := false));
    }
  }

  lemma {:induction false} ReachableProvenance(w: World, schedule: seq<Action>)
    requires WorldOk(w) && Execute(w, schedule).Some?
    ensures Provenance(w, Execute(w, schedule).value)
  {
    if schedule == [] {
    } else {
      var before := schedule[..|schedule| - 1];
      ReachableProvenance(w, before);
      StepKeepsProvenance(w, Execute(w, before).value, schedule[|schedule| - 1]);
    }
  }

  /** Nothing is invented, on every schedule of all threads, key installs and network
      behaviour: a packet the server wrote under a session was read from the TUN of a
      client of that session, a packet a client wrote was read from the server's TUN
      and encrypted for that client's session, and no empty packet is ever written. */
  lemma NothingInvented(w: World, schedule: seq<Action>)
    requires WorldOk(w) && Execute(w, schedule).Some?
    ensures var st := Execute(w, schedule).value;
            |st.clients| == |w.sessions| && forall t :: t in st.server.tunOut ==>
              t.1 != [] && t.0 < |w.sessions| &&
              exists i :: 0 <= i < |st.clients| && w.sessions[i] == w.sessions[t.0] && t.1 in st.clients[i].tunIn
    ensures var st := Execute(w, schedule).value;
            forall i :: 0 <= i < |st.clients| ==> ClientWroteOnly(w, st, i)
  {
    ReachableProvenance(w, schedule);
    var st := Execute(w, schedule).value;
    forall t | t in st.server.tunOut
      ensures t.1 != [] && t.0 < |w.sessions|
      ensures exists i :: 0 <= i < |st.clients| && w.sessions[i] == w.sessions[t.0] && t.1 in st.clients[i].tunIn
    {
      var i :| 0 <= i < |st.clients| && ClientKeys(w, i) == ClientKeys(w, t.0) && t.1 in st.clients[i].tunIn;
      SameEncryptKey(w, i, t.0);
    }
    forall i | 0 <= i < |st.clients|
      ensures ClientWroteOnly(w, st, i)
    {
      assert ClientOk(w, st, i);
    }
  }
}
