/** The traffic counters of client/tunnel.py, at the granularity of single loads and
    stores: what they equal, and what one end may claim about the other. */
module Traffic {
  import opened Bytes
  import opened Crypto
  import opened Tunnel

  function Sum(xs: seq<nat>): nat {
    if xs == [] then 0 else Sum(xs[..|xs| - 1]) + xs[|xs| - 1]
  }

  /** The bytes that carry these plaintexts. */
  function Carried(plains: seq<nat>): nat {
    Sum(plains) + OVERHEAD * |plains|
  }

  lemma SumMore(xs: seq<nat>, x: nat)
    ensures Sum(xs + [x]) == Sum(xs) + x
  {
    assert (xs + [x])[..|xs|] == xs;
  }

  /** `bytes_sent` and `packets_sent`: exact between packets, and behind by the packet
      just sent while its two updates run. */
  predicate UpBooks(c: Client) {
    match c.up
    case UpLoadBytes(n) =>
      c.bytesSent + n == Carried(c.accepted) && c.packetsSent + 1 == |c.accepted| && n == c.accepted[|c.accepted| - 1] + OVERHEAD
    case UpStoreBytes(v) =>
      v == Carried(c.accepted) && c.packetsSent + 1 == |c.accepted| && v == c.bytesSent + c.accepted[|c.accepted| - 1] + OVERHEAD
    case UpLoadPackets => c.bytesSent == Carried(c.accepted) && c.packetsSent + 1 == |c.accepted|
    case UpStorePackets(v) => c.bytesSent == Carried(c.accepted) && c.packetsSent + 1 == v == |c.accepted|
    case _ => c.bytesSent == Carried(c.accepted) && c.packetsSent == |c.accepted|
  }

  function Sizes(ts: seq<Taken>): nat {
    if ts == [] then 0 else Sizes(ts[..|ts| - 1]) + ts[|ts| - 1].size
  }

  predicate DownBooks(c: Client) {
    match c.down
    case DownLoadBytes(n) => c.bytesReceived + n == Sizes(c.counted) && c.packetsReceived + 1 == |c.counted|
    case DownStoreBytes(v) => c.bytesReceived <= v == Sizes(c.counted) && c.packetsReceived + 1 == |c.counted|
    case DownLoadPackets => c.bytesReceived == Sizes(c.counted) && c.packetsReceived + 1 == |c.counted|
    case DownStorePackets(v) => c.bytesReceived == Sizes(c.counted) && v == |c.counted|
    case _ => c.bytesReceived == Sizes(c.counted) && c.packetsReceived == |c.counted|
  }

  predicate TxBooks(v: Server) {
    match v.tx
    case TxLoad(n) =>
      v.bytesSent + n == Carried(v.replied) && v.replied != [] && n == v.replied[|v.replied| - 1] + OVERHEAD
    case TxStore(t) =>
      t == Carried(v.replied) && v.replied != [] && t == v.bytesSent + v.replied[|v.replied| - 1] + OVERHEAD
    case _ => v.bytesSent == Carried(v.replied)
  }

  predicate RxBooks(v: Server) {
    match v.rx
    case RxLoad(n) => v.bytesReceived + n == Sizes(v.taken)
    case RxStore(t) => v.bytesReceived <= t == Sizes(v.taken)
    case _ => v.bytesReceived == Sizes(v.taken)
  }

  /** The datagrams whose bytes one end counts as sent and the other as received: client
      data upwards, the server's replies downwards. */
  datatype Way = Upwards | Downwards

  predicate Goes(kind: Kind, way: Way) {
    match way case Upwards => kind.Data? case Downwards => kind.Reply?
  }

  /** A faithful copy that is counted is a copy of such a datagram. */
  predicate CopyOk(wire: seq<Entry>, t: Taken, way: Way) {
    t.copy.Some? ==>
      t.copy.value < |wire| && Goes(wire[t.copy.value].kind, way) && t.size == |wire[t.copy.value].plain| + OVERHEAD
  }

  predicate AllCopiesOk(wire: seq<Entry>, ts: seq<Taken>, way: Way) {
    forall j :: 0 <= j < |ts| ==> CopyOk(wire, ts[j], way)
  }

  predicate RxCopiesOk(wire: seq<Entry>, v: Server) {
    AllCopiesOk(wire, v.taken, Upwards) && (v.rx.RxWrite? ==> CopyOk(wire, Taken(|v.rx.r.d|, v.rx.r.copy), Upwards))
  }

  predicate DownCopiesOk(wire: seq<Entry>, c: Client) {
    AllCopiesOk(wire, c.counted, Downwards) &&
    (c.down.DownWrite? ==> CopyOk(wire, Taken(|c.down.r.d|, c.down.r.copy), Downwards))
  }

  /** The size of the datagrams on the wire that go one way. */
  function WireData(wire: seq<Entry>, way: Way): nat {
    if wire == [] then 0
    else
      var e := wire[|wire| - 1];
      WireData(wire[..|wire| - 1], way) + if Goes(e.kind, way) then |e.plain| + OVERHEAD else 0
  }

  /** What the clients know they sent. */
  function AllCarried(cs: seq<Client>): nat {
    if cs == [] then 0 else AllCarried(cs[..|cs| - 1]) + Carried(cs[|cs| - 1].accepted)
  }

  predicate ClientBooks(wire: seq<Entry>, c: Client) {
    UpBooks(c) && DownBooks(c) && DownCopiesOk(wire, c)
  }

  predicate ServerBooks(wire: seq<Entry>, v: Server) {
    TxBooks(v) && RxBooks(v) && RxCopiesOk(wire, v) && WireData(wire, Downwards) == Carried(v.replied)
  }

  predicate Books(st: State) {
    && (forall i :: 0 <= i < |st.clients| ==> ClientBooks(st.wire, st.clients[i]))
    && ServerBooks(st.wire, st.server)
    && WireData(st.wire, Upwards) == AllCarried(st.clients)
  }

  lemma {:induction false} AllCarriedUpdate(cs: seq<Client>, i: nat, c: Client)
    requires i < |cs|
    ensures AllCarried(cs[i := c]) + Carried(cs[i].accepted) == AllCarried(cs) + Carried(c.accepted)
  {
    var n := |cs| - 1;
    if i < n {
      AllCarriedUpdate(cs[..n], i, c);
      assert cs[i := c][..n] == cs[..n][i := c];
    } else {
      assert cs[i := c][..n] == cs[..n];
    }
  }

  /** The bytes a step adds to one way. */
  function Added(sent: seq<Entry>, way: Way): nat
    requires |sent| <= 1
  {
    if sent != [] && Goes(sent[0].kind, way) then |sent[0].plain| + OVERHEAD else 0
  }

  lemma WireDataMore(wire: seq<Entry>, sent: seq<Entry>, way: Way)
    requires |sent| <= 1
    ensures WireData(wire + sent, way) == WireData(wire, way) + Added(sent, way)
  {
    if sent == [] {
      assert wire + sent == wire;
    } else {
      assert (wire + sent)[..|wire|] == wire;
    }
  }

  lemma SendKeepsBooks(i: nat, c: Client, x: Input)
    requires c.up.UpSend? && UpEnabled(c.up, x) && UpBooks(c)
    ensures UpBooks(UpNext(i, c, x))
  {
    var size := |c.up.e.plain|;
    SumMore(c.accepted, size);
    assert (c.accepted + [size])[|c.accepted|] == size;
  }

  /** Only the data thread writes the two send counters, only the receive thread the
      other two; each step leaves both pairs of books in order. */
  lemma UpKeepsBooks(i: nat, c: Client, x: Input)
    requires UpEnabled(c.up, x) && UpBooks(c)
    ensures UpBooks(UpNext(i, c, x))
  {
    if c.up.UpSend? {
      SendKeepsBooks(i, c, x);
    }
  }

  lemma SizesMore(ts: seq<Taken>, t: Taken)
    ensures Sizes(ts + [t]) == Sizes(ts) + t.size
  {
    assert (ts + [t])[..|ts|] == ts;
  }

  lemma DownKeepsBooks(w: World, st: State, i: nat, c: Client, x: Input)
    requires i < |w.sessions| && DownEnabled(w, st, c.down, x) && DownBooks(c)
    ensures DownBooks(DownNext(w, i, c, x))
    ensures var d := DownNext(w, i, c, x);
            d.up == c.up && d.accepted == c.accepted && d.bytesSent == c.bytesSent && d.packetsSent == c.packetsSent
  {
    if c.down.DownWrite? {
      SizesMore(c.counted, Taken(|c.down.r.d|, c.down.r.copy));
    }
  }

  /** What a client counts downwards are replies. */
  lemma DownKeepsCopies(w: World, st: State, i: nat, x: Input)
    requires WorldOk(w) && Provenance(w, st) && Enabled(w, st, StepDown(i, x)) && DownCopiesOk(st.wire, st.clients[i])
    ensures DownCopiesOk(st.wire, DownNext(w, i, st.clients[i], x))
  {
    var c := st.clients[i];
    assert ClientOk(w, st, i);
    if c.down.DownOpen? && Decrypt(ClientKeys(w, i).decryptKey, c.down.r.d).Some? {
      ClientOpens(w, st, i, c.down.r);
    }
  }

  lemma TxKeepsBooks(v: Server, x: Input)
    requires TxEnabled(v, x) && TxBooks(v)
    ensures TxBooks(TxNext(v, x))
  {
    if v.tx.TxSend? {
      var size := |v.tx.e.plain|;
      SumMore(v.replied, size);
      assert (v.replied + [size])[|v.replied|] == size;
    }
  }

  lemma RxKeepsBooks(w: World, st: State, x: Input)
    requires RxEnabled(w, st, x) && RxBooks(st.server)
    ensures RxBooks(RxNext(w, st, x))
  {
    var v := st.server;
    if v.rx.RxWrite? {
      SizesMore(v.taken, Taken(|v.rx.r.d|, v.rx.r.copy));
    }
  }

  /** What the server counts upwards are data datagrams of clients. */
  lemma RxKeepsCopies(w: World, st: State, x: Input)
    requires WorldOk(w) && Provenance(w, st) && RxEnabled(w, st, x) && RxCopiesOk(st.wire, st.server)
    ensures RxCopiesOk(st.wire, RxNext(w, st, x))
  {
    var v := st.server;
    if v.rx.RxOpen? {
      var p := Decrypt(ServerKeys(w, v.dec.value).decryptKey, v.rx.r.d);
      if p.Some? && p.value != [] {
        ServerOpens(w, st, v.dec.value, v.rx.r);
      }
    }
  }

  lemma CopiesGrow(wire: seq<Entry>, sent: seq<Entry>, c: Client, v: Server)
    ensures DownCopiesOk(wire, c) ==> DownCopiesOk(wire + sent, c)
    ensures RxCopiesOk(wire, v) ==> RxCopiesOk(wire + sent, v)
  {
  }

  /** A client's step adds to the wire's data what it adds to the client's own. */
  lemma ClientStepBooks(st: State, i: nat, c: Client, sent: seq<Entry>)
    requires Books(st) && i < |st.clients| && ClientBooks(st.wire, c) && |sent| <= 1 && Added(sent, Downwards) == 0
    requires Carried(c.accepted) == Carried(st.clients[i].accepted) + Added(sent, Upwards)
    ensures Books(st.(clients := st.clients[i := c], wire := st.wire + sent))
  {
    var after := st.(clients := st.clients[i := c], wire := st.wire + sent);
    AllCarriedUpdate(st.clients, i, c);
    WireDataMore(st.wire, sent, Upwards);
    WireDataMore(st.wire, sent, Downwards);
    forall j | 0 <= j < |after.clients|
      ensures ClientBooks(after.wire, after.clients[j])
    {
      CopiesGrow(st.wire, sent, after.clients[j], st.server);
    }
    CopiesGrow(st.wire, sent, c, st.server);
  }

  lemma SendAccounts(i: nat, c: Client, x: Input)
    requires UpEnabled(c.up, x) && (c.up.UpSend? ==> c.up.e.kind.Data?)
    ensures var sent := if c.up.UpSend? && x.Nothing? then [c.up.e] else [];
            Carried(UpNext(i, c, x).accepted) == Carried(c.accepted) + Added(sent, Upwards) && Added(sent, Downwards) == 0
  {
    if c.up.UpSend? && x.Nothing? {
      SumMore(c.accepted, |c.up.e.plain|);
      assert UpNext(i, c, x).accepted == c.accepted + [|c.up.e.plain|];
    } else {
      assert UpNext(i, c, x).accepted == c.accepted;
    }
  }

  /** A client's data thread accounts for what it sends, and for nothing else. */
  lemma UpAccounts(w: World, st: State, i: nat, x: Input)
    requires Provenance(w, st) && Enabled(w, st, StepUp(i, x))
    ensures var sent := Emits(st, StepUp(i, x));
            Carried(UpNext(i, st.clients[i], x).accepted) == Carried(st.clients[i].accepted) + Added(sent, Upwards) &&
            Added(sent, Downwards) == 0
  {
    assert ClientOk(w, st, i);
    SendAccounts(i, st.clients[i], x);
  }

  lemma UpCountsNothing(i: nat, c: Client, x: Input)
    requires UpEnabled(c.up, x)
    ensures var d := UpNext(i, c, x);
            d.down == c.down && d.counted == c.counted && d.bytesReceived == c.bytesReceived && d.packetsReceived == c.packetsReceived
  {
  }

  lemma StepUpBooks(w: World, st: State, i: nat, x: Input)
    requires Provenance(w, st) && Books(st) && Enabled(w, st, StepUp(i, x))
    ensures Books(Apply(w, st, StepUp(i, x)))
  {
    assert ClientBooks(st.wire, st.clients[i]);
    UpKeepsBooks(i, st.clients[i], x);
    UpCountsNothing(i, st.clients[i], x);
    UpAccounts(w, st, i, x);
    ClientStepBooks(st, i, UpNext(i, st.clients[i], x), Emits(st, StepUp(i, x)));
  }

  lemma KeepTouchesNoBooks(i: nat, c: Client, x: Input)
    requires KeepEnabled(c.keep, x)
    ensures KeepNext(i, c, x) == c.(keep := KeepNext(i, c, x).keep)
  {
  }

  lemma StepKeepBooks(w: World, st: State, i: nat, x: Input)
    requires Provenance(w, st) && Books(st) && Enabled(w, st, StepKeep(i, x))
    ensures Books(Apply(w, st, StepKeep(i, x)))
  {
    assert ClientBooks(st.wire, st.clients[i]) && ClientOk(w, st, i);
    KeepTouchesNoBooks(i, st.clients[i], x);
    ClientStepBooks(st, i, KeepNext(i, st.clients[i], x), Emits(st, StepKeep(i, x)));
  }

  lemma StepDownBooks(w: World, st: State, i: nat, x: Input)
    requires WorldOk(w) && Provenance(w, st) && Books(st) && Enabled(w, st, StepDown(i, x))
    ensures Books(Apply(w, st, StepDown(i, x)))
  {
    assert ClientBooks(st.wire, st.clients[i]);
    DownKeepsBooks(w, st, i, st.clients[i], x);
    DownKeepsCopies(w, st, i, x);
    var d := DownNext(w, i, st.clients[i], x);
    ClientStepBooks(st, i, d, []);
    assert Apply(w, st, StepDown(i, x)) == st.(clients := st.clients[i := d], wire := st.wire + []);
  }

  /** The server's step adds to the replies on the wire what it adds to its own list. */
  lemma ServerStepBooks(st: State, v: Server, sent: seq<Entry>)
    requires Books(st) && TxBooks(v) && RxBooks(v) && RxCopiesOk(st.wire, v) && |sent| <= 1 && Added(sent, Upwards) == 0
    requires Carried(v.replied) == Carried(st.server.replied) + Added(sent, Downwards)
    ensures Books(st.(server := v, wire := st.wire + sent))
  {
    var after := st.(server := v, wire := st.wire + sent);
    WireDataMore(st.wire, sent, Upwards);
    WireDataMore(st.wire, sent, Downwards);
    forall j | 0 <= j < |after.clients|
      ensures ClientBooks(after.wire, after.clients[j])
    {
      CopiesGrow(st.wire, sent, st.clients[j], v);
    }
    CopiesGrow(st.wire, sent, FRESH_CLIENT, v);
  }

  lemma TxAccounts(w: World, st: State, x: Input)
    requires Provenance(w, st) && Enabled(w, st, StepTx(x))
    ensures var v, sent := TxNext(st.server, x), Emits(st, StepTx(x));
            Carried(v.replied) == Carried(st.server.replied) + Added(sent, Downwards) && Added(sent, Upwards) == 0 &&
            v.rx == st.server.rx && v.taken == st.server.taken && v.bytesReceived == st.server.bytesReceived
  {
    assert TxOk(w, st);
    if st.server.tx.TxSend? {
      SumMore(st.server.replied, |st.server.tx.e.plain|);
    }
  }

  lemma StepTxBooks(w: World, st: State, x: Input)
    requires Provenance(w, st) && Books(st) && Enabled(w, st, StepTx(x))
    ensures Books(Apply(w, st, StepTx(x)))
  {
    TxKeepsBooks(st.server, x);
    TxAccounts(w, st, x);
    ServerStepBooks(st, TxNext(st.server, x), Emits(st, StepTx(x)));
  }

  lemma RxSendsNothing(w: World, st: State, x: Input)
    requires RxEnabled(w, st, x)
    ensures var v := RxNext(w, st, x);
            v.tx == st.server.tx && v.replied == st.server.replied && v.bytesSent == st.server.bytesSent
  {
  }

  lemma StepRxBooks(w: World, st: State, x: Input)
    requires WorldOk(w) && Provenance(w, st) && Books(st) && Enabled(w, st, StepRx(x))
    ensures Books(Apply(w, st, StepRx(x)))
  {
    RxKeepsBooks(w, st, x);
    RxKeepsCopies(w, st, x);
    RxSendsNothing(w, st, x);
    ServerStepBooks(st, RxNext(w, st, x), []);
  }

  lemma StopBooks(w: World, st: State, i: nat)
    requires Books(st) && Enabled(w, st, StopClient(i))
    ensures Books(Apply(w, st, StopClient(i)))
  {
    assert ClientBooks(st.wire, st.clients[i]);
    ClientStepBooks(st, i, st.clients[i].(running := false), []);
  }

  /** Key installs and stop flags touch no books. */
  lemma SwitchBooks(w: World, st: State, a: Action)
    requires Books(st) && Enabled(w, st, a) && (a.StopServer? || a.InstallEncryptor? || a.InstallDecryptor?)
    ensures Books(Apply(w, st, a))
  {
    match a {
      case InstallEncryptor(s) => ServerStepBooks(st, st.server.(enc := Some(s)), []);
      case InstallDecryptor(s) => ServerStepBooks(st, st.server.(dec := Some(s)), []);
      case StopServer => ServerStepBooks(st, st.server.(running := false), []);
    }
  }

  lemma StepKeepsBooks(w: World, st: State, a: Action)
    requires WorldOk(w) && Provenance(w, st) && Books(st) && Enabled(w, st, a)
    ensures Books(Apply(w, st, a))
  {
    match a {
      case StepUp(i, x) => StepUpBooks(w, st, i, x);
      case StepKeep(i, x) => StepKeepBooks(w, st, i, x);
      case StepDown(i, x) => StepDownBooks(w, st, i, x);
      case StepRx(x) => StepRxBooks(w, st, x);
      case StepTx(x) => StepTxBooks(w, st, x);
      case StopClient(i) => StopBooks(w, st, i);
      case _ => SwitchBooks(w, st, a);
    }
  }

  lemma {:induction false} ReachableBooks(w: World, schedule: seq<Action>)
    requires WorldOk(w) && Execute(w, schedule).Some?
    ensures Books(Execute(w, schedule).value)
  {
    if schedule == [] {
      FreshBooks(|w.sessions|);
    } else {
      var before := schedule[..|schedule| - 1];
      ReachableBooks(w, before);
      ReachableProvenance(w, before);
      StepKeepsBooks(w, Execute(w, before).value, schedule[|schedule| - 1]);
    }
  }

  lemma {:induction false} FreshBooks(n: nat)
    ensures AllCarried(seq(n, _ => FRESH_CLIENT)) == 0
  {
    if n > 0 {
      FreshBooks(n - 1);
      assert seq(n, _ => FRESH_CLIENT)[..n - 1] == seq(n - 1, _ => FRESH_CLIENT);
    }
  }

  predicate BetweenPackets(up: Up) {
    up.UpTop? || up.UpRead? || up.UpHave? || up.UpEncrypt? || up.UpSend? || up.UpExit?
  }

  predicate CountersMatch(c: Client) {
    && (BetweenPackets(c.up) ==>
          c.packetsSent == |c.accepted| && c.bytesSent == Sum(c.accepted) + 28 * c.packetsSent)
    && (c.down.DownTop? || c.down.DownExit? ==>
          c.packetsReceived == |c.counted| && c.bytesReceived == Sizes(c.counted))
  }

  lemma BooksMatch(c: Client)
    requires UpBooks(c) && DownBooks(c)
    ensures CountersMatch(c)
  {
  }

  /** Whenever a client's data thread is between packets, its counters are exactly the
      packets `sendto` took and the bytes that carried them, and whenever its receive
      thread is, the datagrams it wrote out; no update is ever lost. */
  lemma CountersExact(w: World, schedule: seq<Action>, i: nat)
    requires WorldOk(w) && Execute(w, schedule).Some? && i < |Execute(w, schedule).value.clients|
    ensures CountersMatch(Execute(w, schedule).value.clients[i])
  {
    ReachableBooks(w, schedule);
    assert ClientBooks(Execute(w, schedule).value.wire, Execute(w, schedule).value.clients[i]);
    BooksMatch(Execute(w, schedule).value.clients[i]);
  }

  // ------------------------------------------------------------ both ends

  /** What a client has handed to the network but not yet added to `bytes_sent`: at
      most the one datagram it has just sent. */
  function Uncounted(c: Client): nat
    requires UpBooks(c)
  {
    Carried(c.accepted) - c.bytesSent
  }

  function AllSent(cs: seq<Client>): nat {
    if cs == [] then 0 else AllSent(cs[..|cs| - 1]) + cs[|cs| - 1].bytesSent
  }

  function AllUncounted(cs: seq<Client>): nat
    requires forall i :: 0 <= i < |cs| ==> UpBooks(cs[i])
  {
    if cs == [] then 0 else AllUncounted(cs[..|cs| - 1]) + Uncounted(cs[|cs| - 1])
  }

  lemma {:induction false} CarriedSplits(cs: seq<Client>)
    requires forall i :: 0 <= i < |cs| ==> UpBooks(cs[i])
    ensures AllCarried(cs) == AllSent(cs) + AllUncounted(cs)
  {
    if cs != [] {
      CarriedSplits(cs[..|cs| - 1]);
    }
  }

  lemma UncountedIsOneDatagram(c: Client)
    requires UpBooks(c)
    ensures Uncounted(c) == 0 || (c.accepted != [] && Uncounted(c) == c.accepted[|c.accepted| - 1] + OVERHEAD)
    ensures BetweenPackets(c.up) ==> Uncounted(c) == 0
  {
  }

  /** Likewise for the server's replies. */
  function UncountedReply(v: Server): nat
    requires TxBooks(v)
  {
    Carried(v.replied) - v.bytesSent
  }

  lemma UncountedIsOneReply(v: Server)
    requires TxBooks(v)
    ensures UncountedReply(v) == 0 ||
            (v.replied != [] && UncountedReply(v) == v.replied[|v.replied| - 1] + OVERHEAD)
    ensures !v.tx.TxLoad? && !v.tx.TxStore? ==> UncountedReply(v) == 0
  {
  }

  /** The network delivered nothing but faithful copies, none twice, as far as what it
      delivered was counted. */
  predicate NoDuplicates(ts: seq<Taken>) {
    (forall j :: 0 <= j < |ts| ==> ts[j].copy.Some?) &&
    (forall j, k :: 0 <= j < k < |ts| ==> ts[j].copy != ts[k].copy)
  }

  function Places(ts: seq<Taken>): set<nat> {
    set j | 0 <= j < |ts| && ts[j].copy.Some? :: ts[j].copy.value
  }

  /** The size of the datagrams that go one way, at the chosen places of the wire. */
  function DataAt(wire: seq<Entry>, places: set<nat>, way: Way): nat {
    if wire == [] then 0
    else
      var k := |wire| - 1;
      DataAt(wire[..k], places, way) + if k in places && Goes(wire[k].kind, way) then |wire[k].plain| + OVERHEAD else 0
  }

  lemma {:induction false} DataAtMost(wire: seq<Entry>, places: set<nat>, way: Way)
    ensures DataAt(wire, places, way) <= WireData(wire, way)
  {
    if wire != [] {
      DataAtMost(wire[..|wire| - 1], places, way);
    }
  }

  lemma {:induction false} DataAtAdd(wire: seq<Entry>, places: set<nat>, k: nat, way: Way)
    requires k !in places
    ensures DataAt(wire, places + {k}, way) ==
            DataAt(wire, places, way) + if k < |wire| && Goes(wire[k].kind, way) then |wire[k].plain| + OVERHEAD else 0
  {
    if wire != [] {
      DataAtAdd(wire[..|wire| - 1], places, k, way);
    }
  }

  lemma {:induction false} DataAtNone(wire: seq<Entry>, way: Way)
    ensures DataAt(wire, {}, way) == 0
  {
    if wire != [] {
      DataAtNone(wire[..|wire| - 1], way);
    }
  }

  lemma {:induction false} SizesAreData(wire: seq<Entry>, ts: seq<Taken>, way: Way)
    requires NoDuplicates(ts) && AllCopiesOk(wire, ts, way)
    ensures Sizes(ts) == DataAt(wire, Places(ts), way)
  {
    if ts == [] {
      assert Places(ts) == {};
      DataAtNone(wire, way);
    } else {
      var n := |ts| - 1;
      SizesAreData(wire, ts[..n], way);
      var k := ts[n].copy.value;
      assert Places(ts) == Places(ts[..n]) + {k};
      DataAtAdd(wire, Places(ts[..n]), k, way);
    }
  }

  /** Counted copies, none twice, are no more than what went that way. */
  lemma CountedAtMost(wire: seq<Entry>, ts: seq<Taken>, way: Way)
    requires NoDuplicates(ts) && AllCopiesOk(wire, ts, way)
    ensures Sizes(ts) <= WireData(wire, way)
  {
    SizesAreData(wire, ts, way);
    DataAtMost(wire, Places(ts), way);
  }

  /** On a network that does not duplicate, the server never counts more bytes than the
      clients have counted, plus what each has sent but not yet counted. */
  lemma {:induction false} ServerNeverOvercounts(w: World, schedule: seq<Action>)
    requires WorldOk(w) && Execute(w, schedule).Some?
    requires NoDuplicates(Execute(w, schedule).value.server.taken)
    ensures var st := Execute(w, schedule).value;
            (forall i :: 0 <= i < |st.clients| ==> UpBooks(st.clients[i])) &&
            st.server.bytesReceived <= AllSent(st.clients) + AllUncounted(st.clients)
  {
    ReachableBooks(w, schedule);
    UpwardsBound(Execute(w, schedule).value);
  }

  lemma UpwardsBound(st: State)
    requires Books(st) && NoDuplicates(st.server.taken)
    ensures forall i :: 0 <= i < |st.clients| ==> UpBooks(st.clients[i])
    ensures st.server.bytesReceived <= AllSent(st.clients) + AllUncounted(st.clients)
  {
    forall i | 0 <= i < |st.clients|
      ensures UpBooks(st.clients[i])
    {
      assert ClientBooks(st.wire, st.clients[i]);
    }
    CountedAtMost(st.wire, st.server.taken, Upwards);
    CarriedSplits(st.clients);
  }

  /** Everything the clients have counted. */
  function AllCounted(cs: seq<Client>): seq<Taken> {
    if cs == [] then [] else AllCounted(cs[..|cs| - 1]) + cs[|cs| - 1].counted
  }

  function AllReceived(cs: seq<Client>): nat {
    if cs == [] then 0 else AllReceived(cs[..|cs| - 1]) + cs[|cs| - 1].bytesReceived
  }

  lemma {:induction false} SizesConcat(a: seq<Taken>, b: seq<Taken>)
    ensures Sizes(a + b) == Sizes(a) + Sizes(b)
  {
    if b == [] {
      assert a + b == a;
    } else {
      var front, last := b[..|b| - 1], b[|b| - 1];
      SizesConcat(a, front);
      SizesMore(a + front, last);
      assert a + b == a + front + [last];
    }
  }

  lemma {:induction false} ReceivedAtMost(wire: seq<Entry>, cs: seq<Client>)
    requires forall i :: 0 <= i < |cs| ==> ClientBooks(wire, cs[i])
    ensures AllReceived(cs) <= Sizes(AllCounted(cs))
  {
    if cs != [] {
      var front, last := cs[..|cs| - 1], cs[|cs| - 1];
      ReceivedAtMost(wire, front);
      SizesConcat(AllCounted(front), last.counted);
      assert ClientBooks(wire, last);
      assert last.bytesReceived <= Sizes(last.counted);
    }
  }

  lemma {:induction false} CountedAreReplies(wire: seq<Entry>, cs: seq<Client>)
    requires forall i :: 0 <= i < |cs| ==> ClientBooks(wire, cs[i])
    ensures AllCopiesOk(wire, AllCounted(cs), Downwards)
  {
    if cs != [] {
      var front, last := cs[..|cs| - 1], cs[|cs| - 1];
      CountedAreReplies(wire, front);
      assert ClientBooks(wire, last);
      assert AllCounted(cs) == AllCounted(front) + last.counted;
    }
  }

  /** And the other way: if the network delivered no reply twice, to whichever clients, all
      clients together never count more bytes than the server has counted, plus the one
      reply it may have sent but not yet counted. */
  lemma {:induction false} ClientsNeverOvercount(w: World, schedule: seq<Action>)
    requires WorldOk(w) && Execute(w, schedule).Some?
    requires NoDuplicates(AllCounted(Execute(w, schedule).value.clients))
    ensures var st := Execute(w, schedule).value;
            TxBooks(st.server) && AllReceived(st.clients) <= st.server.bytesSent + UncountedReply(st.server)
  {
    ReachableBooks(w, schedule);
    var st := Execute(w, schedule).value;
    ReceivedAtMost(st.wire, st.clients);
    CountedAreReplies(st.wire, st.clients);
    CountedAtMost(st.wire, AllCounted(st.clients), Downwards);
  }
}
