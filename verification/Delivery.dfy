/** What the worker loops of client/tunnel.py do achieve: one whole turn of each loop, and
    packets that get from one TUN to the other. */
module Delivery {
  import opened Bytes
  import opened Crypto
  import opened Tunnel

  // ------------------------------------------------------- one step of a thread

  predicate OnlyClient(st: State, after: State, i: nat) {
    |after.clients| == |st.clients| && after.server == st.server &&
    forall j :: 0 <= j < |st.clients| && j != i ==> after.clients[j] == st.clients[j]
  }

  lemma {:induction false} Extend(w: World, schedule: seq<Action>, st: State, a: Action) returns (longer: seq<Action>)
    requires Execute(w, schedule) == Some(st) && Enabled(w, st, a)
    ensures schedule <= longer && Execute(w, longer) == Some(Apply(w, st, a))
  {
    longer := schedule + [a];
    assert longer[..|schedule|] == schedule;
  }

  lemma {:induction false} UpStep(w: World, schedule: seq<Action>, st: State, i: nat, x: Input) returns (longer: seq<Action>, after: State)
    requires Execute(w, schedule) == Some(st) && i < |st.clients| == |w.sessions| && UpEnabled(st.clients[i].up, x)
    ensures schedule <= longer && Execute(w, longer) == Some(after) && OnlyClient(st, after, i)
    ensures after.clients[i] == UpNext(i, st.clients[i], x)
    ensures after.wire == st.wire + if st.clients[i].up.UpSend? && x.Nothing? then [st.clients[i].up.e] else []
  {
    longer := Extend(w, schedule, st, StepUp(i, x));
    after := Apply(w, st, StepUp(i, x));
  }

  lemma {:induction false} KeepStep(w: World, schedule: seq<Action>, st: State, i: nat, x: Input) returns (longer: seq<Action>, after: State)
    requires Execute(w, schedule) == Some(st) && i < |st.clients| == |w.sessions| && KeepEnabled(st.clients[i].keep, x)
    ensures schedule <= longer && Execute(w, longer) == Some(after) && OnlyClient(st, after, i)
    ensures after.clients[i] == KeepNext(i, st.clients[i], x)
    ensures after.wire == st.wire + if st.clients[i].keep.KeepSend? && x.Nothing? then [st.clients[i].keep.e] else []
  {
    longer := Extend(w, schedule, st, StepKeep(i, x));
    after := Apply(w, st, StepKeep(i, x));
  }

  lemma {:induction false} DownStep(w: World, schedule: seq<Action>, st: State, i: nat, x: Input) returns (longer: seq<Action>, after: State)
    requires Execute(w, schedule) == Some(st) && i < |st.clients| == |w.sessions| && DownEnabled(w, st, st.clients[i].down, x)
    ensures schedule <= longer && Execute(w, longer) == Some(after) && OnlyClient(st, after, i)
    ensures after.clients[i] == DownNext(w, i, st.clients[i], x) && after.wire == st.wire
  {
    longer := Extend(w, schedule, st, StepDown(i, x));
    after := Apply(w, st, StepDown(i, x));
    assert after.wire == st.wire + [];
  }

  lemma {:induction false} RxStep(w: World, schedule: seq<Action>, st: State, x: Input) returns (longer: seq<Action>, after: State)
    requires Execute(w, schedule) == Some(st) && |st.clients| == |w.sessions| && RxEnabled(w, st, x)
    ensures schedule <= longer && Execute(w, longer) == Some(after) && after.clients == st.clients
    ensures after.server == RxNext(w, st, x) && after.wire == st.wire
  {
    longer := Extend(w, schedule, st, StepRx(x));
    after := Apply(w, st, StepRx(x));
    assert after.wire == st.wire + [];
  }

  lemma {:induction false} TxStep(w: World, schedule: seq<Action>, st: State, x: Input) returns (longer: seq<Action>, after: State)
    requires Execute(w, schedule) == Some(st) && |st.clients| == |w.sessions| && TxEnabled(st.server, x)
    ensures schedule <= longer && Execute(w, longer) == Some(after) && after.clients == st.clients
    ensures after.server == TxNext(st.server, x)
    ensures after.wire == st.wire + if st.server.tx.TxSend? && x.Nothing? then [st.server.tx.e] else []
  {
    longer := Extend(w, schedule, st, StepTx(x));
    after := Apply(w, st, StepTx(x));
  }

  // ------------------------------------------------------ one turn of each loop

  lemma {:induction false} UpSeals(w: World, schedule: seq<Action>, st: State, i: nat, p: ByteString,
                                   nonce: ByteString, output: ByteString) returns (longer: seq<Action>, after: State)
    requires Execute(w, schedule) == Some(st) && i < |st.clients| == |w.sessions|
    requires st.clients[i].up == UpTop && st.clients[i].running && p != [] && SealInputs(nonce, p, output)
    ensures schedule <= longer && Execute(w, longer) == Some(after) && OnlyClient(st, after, i) && after.wire == st.wire
    ensures var c := st.clients[i];
            after.clients[i] == c.(tunIn := c.tunIn + {p}, up := UpSend(Entry(Data(i), nonce, p, output)))
  {
    longer, after := UpStep(w, schedule, st, i, Nothing);
    longer, after := UpStep(w, longer, after, i, FromTun(p));
    longer, after := UpStep(w, longer, after, i, Nothing);
    longer, after := UpStep(w, longer, after, i, Random(nonce, output));
  }

  lemma {:induction false} UpCounts(w: World, schedule: seq<Action>, st: State, i: nat)
    returns (longer: seq<Action>, after: State)
    requires Execute(w, schedule) == Some(st) && i < |st.clients| == |w.sessions| && st.clients[i].up.UpSend?
    ensures schedule <= longer && Execute(w, longer) == Some(after) && OnlyClient(st, after, i)
    ensures after.wire == st.wire + [st.clients[i].up.e]
    ensures var c := st.clients[i];
            var n := |c.up.e.plain|;
            after.clients[i] == c.(up := UpTop, accepted := c.accepted + [n],
                                   bytesSent := c.bytesSent + n + 28, packetsSent := c.packetsSent + 1)
  {
    longer, after := UpStep(w, schedule, st, i, Nothing);
    longer, after := UpStep(w, longer, after, i, Nothing);
    longer, after := UpStep(w, longer, after, i, Nothing);
    longer, after := UpStep(w, longer, after, i, Nothing);
    longer, after := UpStep(w, longer, after, i, Nothing);
  }

  /** A client that reads a packet sends it once, sealed, and counts packet and bytes. */
  lemma {:induction false} UpTurn(w: World, schedule: seq<Action>, st: State, i: nat, p: ByteString,
                                  nonce: ByteString, output: ByteString) returns (longer: seq<Action>, after: State)
    requires Execute(w, schedule) == Some(st) && i < |st.clients| == |w.sessions|
    requires st.clients[i].up == UpTop && st.clients[i].running && p != [] && SealInputs(nonce, p, output)
    ensures schedule <= longer && Execute(w, longer) == Some(after) && OnlyClient(st, after, i)
    ensures after.wire == st.wire + [Entry(Data(i), nonce, p, output)]
    ensures var c := st.clients[i];
            after.clients[i] == c.(tunIn := c.tunIn + {p}, accepted := c.accepted + [|p|],
                                   bytesSent := c.bytesSent + |p| + 28, packetsSent := c.packetsSent + 1)
  {
    longer, after := UpSeals(w, schedule, st, i, p, nonce, output);
    longer, after := UpCounts(w, longer, after, i);
  }

  /** A client sends an empty sealed packet after each sleep, uncounted. */
  lemma {:induction false} KeepTurn(w: World, schedule: seq<Action>, st: State, i: nat, nonce: ByteString, output: ByteString)
    returns (longer: seq<Action>, after: State)
    requires Execute(w, schedule) == Some(st) && i < |st.clients| == |w.sessions|
    requires st.clients[i].keep == KeepTop && st.clients[i].running && SealInputs(nonce, [], output)
    ensures schedule <= longer && Execute(w, longer) == Some(after) && OnlyClient(st, after, i)
    ensures after.wire == st.wire + [Entry(Keepalive(i), nonce, [], output)] && after.clients[i] == st.clients[i]
  {
    longer, after := KeepStep(w, schedule, st, i, Nothing);
    longer, after := KeepStep(w, longer, after, i, Nothing);
    longer, after := KeepStep(w, longer, after, i, Random(nonce, output));
    longer, after := KeepStep(w, longer, after, i, Nothing);
  }

  lemma {:induction false} DownOpens(w: World, schedule: seq<Action>, st: State, i: nat, r: Packet, p: ByteString)
    returns (longer: seq<Action>, after: State)
    requires Execute(w, schedule) == Some(st) && i < |st.clients| == |w.sessions| && Deliverable(w, st, r)
    requires st.clients[i].down == DownTop && st.clients[i].running && r.from == w.serverAddr
    requires p != [] && Decrypt(ClientKeys(w, i).decryptKey, r.d) == Some(p)
    ensures schedule <= longer && Execute(w, longer) == Some(after) && OnlyClient(st, after, i) && after.wire == st.wire
    ensures after.clients[i] == st.clients[i].(down := DownWrite(p, r))
  {
    longer, after := DownStep(w, schedule, st, i, Nothing);
    DeliverableStays(w, st, after, r);
    longer, after := DownStep(w, longer, after, i, Udp(r));
    longer, after := DownStep(w, longer, after, i, Nothing);
    longer, after := DownStep(w, longer, after, i, Nothing);
  }

  lemma {:induction false} DownCounts(w: World, schedule: seq<Action>, st: State, i: nat)
    returns (longer: seq<Action>, after: State)
    requires Execute(w, schedule) == Some(st) && i < |st.clients| == |w.sessions| && st.clients[i].down.DownWrite?
    ensures schedule <= longer && Execute(w, longer) == Some(after) && OnlyClient(st, after, i) && after.wire == st.wire
    ensures var c := st.clients[i];
            var p, r := c.down.p, c.down.r;
            after.clients[i] == c.(down := DownTop, tunOut := c.tunOut + {(p, r.from)},
                                   counted := c.counted + [Taken(|r.d|, r.copy)],
                                   bytesReceived := c.bytesReceived + |r.d|, packetsReceived := c.packetsReceived + 1)
  {
    longer, after := DownStep(w, schedule, st, i, Nothing);
    longer, after := DownStep(w, longer, after, i, Nothing);
    longer, after := DownStep(w, longer, after, i, Nothing);
    longer, after := DownStep(w, longer, after, i, Nothing);
    longer, after := DownStep(w, longer, after, i, Nothing);
  }

  /** A client that receives a datagram from the server's address that opens to a packet
      writes the packet and counts packet and datagram. */
  lemma {:induction false} DownTurn(w: World, schedule: seq<Action>, st: State, i: nat, r: Packet, p: ByteString)
    returns (longer: seq<Action>, after: State)
    requires Execute(w, schedule) == Some(st) && i < |st.clients| == |w.sessions| && Deliverable(w, st, r)
    requires st.clients[i].down == DownTop && st.clients[i].running && r.from == w.serverAddr
    requires p != [] && Decrypt(ClientKeys(w, i).decryptKey, r.d) == Some(p)
    ensures schedule <= longer && Execute(w, longer) == Some(after) && OnlyClient(st, after, i) && after.wire == st.wire
    ensures var c := st.clients[i];
            after.clients[i] == c.(tunOut := c.tunOut + {(p, r.from)}, counted := c.counted + [Taken(|r.d|, r.copy)],
                                   bytesReceived := c.bytesReceived + |r.d|, packetsReceived := c.packetsReceived + 1)
  {
    longer, after := DownOpens(w, schedule, st, i, r, p);
    longer, after := DownCounts(w, longer, after, i);
  }

  /** A client drops any other datagram without a trace. */
  lemma {:induction false} DownRejects(w: World, schedule: seq<Action>, st: State, i: nat, r: Packet)
    returns (longer: seq<Action>, after: State)
    requires Execute(w, schedule) == Some(st) && i < |st.clients| == |w.sessions| && Deliverable(w, st, r)
    requires st.clients[i].down == DownTop && st.clients[i].running
    requires r.from != w.serverAddr || Decrypt(ClientKeys(w, i).decryptKey, r.d) in {None, Some([])}
    ensures schedule <= longer && Execute(w, longer) == Some(after) && OnlyClient(st, after, i)
    ensures after.wire == st.wire && after.clients[i] == st.clients[i]
  {
    longer, after := DownStep(w, schedule, st, i, Nothing);
    DeliverableStays(w, st, after, r);
    longer, after := DownStep(w, longer, after, i, Udp(r));
    longer, after := DownStep(w, longer, after, i, Nothing);
    if r.from == w.serverAddr {
      longer, after := DownStep(w, longer, after, i, Nothing);
    }
  }

  lemma {:induction false} RxOpens(w: World, schedule: seq<Action>, st: State, s: nat, r: Packet, p: ByteString)
    returns (longer: seq<Action>, after: State)
    requires Execute(w, schedule) == Some(st) && |st.clients| == |w.sessions| && Deliverable(w, st, r)
    requires st.server.rx == RxTop && st.server.running && st.server.dec == Some(s) && s < |w.sessions|
    requires p != [] && Decrypt(ServerKeys(w, s).decryptKey, r.d) == Some(p)
    ensures schedule <= longer && Execute(w, longer) == Some(after) && after.clients == st.clients && after.wire == st.wire
    ensures after.server == st.server.(clientAddr := Some(r.from), rx := RxWrite(p, r, s))
  {
    longer, after := RxStep(w, schedule, st, Nothing);
    DeliverableStays(w, st, after, r);
    longer, after := RxStep(w, longer, after, Udp(r));
    longer, after := RxStep(w, longer, after, Nothing);
    longer, after := RxStep(w, longer, after, Nothing);
    longer, after := RxStep(w, longer, after, Nothing);
  }

  lemma {:induction false} RxCounts(w: World, schedule: seq<Action>, st: State) returns (longer: seq<Action>, after: State)
    requires Execute(w, schedule) == Some(st) && |st.clients| == |w.sessions| && st.server.rx.RxWrite?
    ensures schedule <= longer && Execute(w, longer) == Some(after) && after.clients == st.clients && after.wire == st.wire
    ensures var v := st.server;
            var p, r, s := v.rx.p, v.rx.r, v.rx.s;
            after.server == v.(rx := RxTop, tunOut := v.tunOut + {(s, p)}, taken := v.taken + [Taken(|r.d|, r.copy)],
                               bytesReceived := v.bytesReceived + |r.d|)
  {
    longer, after := RxStep(w, schedule, st, Nothing);
    longer, after := RxStep(w, longer, after, Nothing);
    longer, after := RxStep(w, longer, after, Nothing);
  }

  /** A server that receives a datagram that opens to a packet writes the packet, counts
      the datagram, and sends to its source from now on. */
  lemma {:induction false} RxTurn(w: World, schedule: seq<Action>, st: State, s: nat, r: Packet, p: ByteString)
    returns (longer: seq<Action>, after: State)
    requires Execute(w, schedule) == Some(st) && |st.clients| == |w.sessions| && Deliverable(w, st, r)
    requires st.server.rx == RxTop && st.server.running && st.server.dec == Some(s) && s < |w.sessions|
    requires p != [] && Decrypt(ServerKeys(w, s).decryptKey, r.d) == Some(p)
    ensures schedule <= longer && Execute(w, longer) == Some(after) && after.clients == st.clients && after.wire == st.wire
    ensures var v := st.server;
            after.server == v.(clientAddr := Some(r.from), tunOut := v.tunOut + {(s, p)},
                               taken := v.taken + [Taken(|r.d|, r.copy)], bytesReceived := v.bytesReceived + |r.d|)
  {
    longer, after := RxOpens(w, schedule, st, s, r, p);
    longer, after := RxCounts(w, longer, after);
  }

  /** Any other datagram, keepalives and injected ones included, only moves the address
      the server sends to. */
  lemma {:induction false} RxRejects(w: World, schedule: seq<Action>, st: State, r: Packet)
    returns (longer: seq<Action>, after: State)
    requires Execute(w, schedule) == Some(st) && |st.clients| == |w.sessions| && Deliverable(w, st, r)
    requires st.server.rx == RxTop && st.server.running
    requires st.server.dec.Some? ==>
               st.server.dec.value < |w.sessions| && Decrypt(ServerKeys(w, st.server.dec.value).decryptKey, r.d) in {None, Some([])}
    ensures schedule <= longer && Execute(w, longer) == Some(after) && after.clients == st.clients && after.wire == st.wire
    ensures after.server == st.server.(clientAddr := Some(r.from))
  {
    longer, after := RxStep(w, schedule, st, Nothing);
    DeliverableStays(w, st, after, r);
    longer, after := RxStep(w, longer, after, Udp(r));
    longer, after := RxStep(w, longer, after, Nothing);
    longer, after := RxStep(w, longer, after, Nothing);
    if st.server.dec.Some? {
      longer, after := RxStep(w, longer, after, Nothing);
    }
  }

  lemma {:induction false} TxSeals(w: World, schedule: seq<Action>, st: State, s: nat, p: ByteString,
                                   nonce: ByteString, output: ByteString) returns (longer: seq<Action>, after: State)
    requires Execute(w, schedule) == Some(st) && |st.clients| == |w.sessions| && st.server.tx == TxTop && st.server.running
    requires st.server.enc == Some(s) && st.server.clientAddr.Some? && p != [] && SealInputs(nonce, p, output)
    ensures schedule <= longer && Execute(w, longer) == Some(after) && after.clients == st.clients && after.wire == st.wire
    ensures after.server == st.server.(tunIn := st.server.tunIn + {p}, tx := TxSend(Entry(Reply(s), nonce, p, output)))
  {
    longer, after := TxStep(w, schedule, st, Nothing);
    longer, after := TxStep(w, longer, after, FromTun(p));
    longer, after := TxStep(w, longer, after, Nothing);
    longer, after := TxStep(w, longer, after, Nothing);
    longer, after := TxStep(w, longer, after, Random(nonce, output));
  }

  lemma {:induction false} TxCounts(w: World, schedule: seq<Action>, st: State) returns (longer: seq<Action>, after: State)
    requires Execute(w, schedule) == Some(st) && |st.clients| == |w.sessions| && st.server.tx.TxSend?
    ensures schedule <= longer && Execute(w, longer) == Some(after) && after.clients == st.clients
    ensures after.wire == st.wire + [st.server.tx.e]
    ensures var v := st.server;
            var n := |v.tx.e.plain|;
            after.server == v.(tx := TxTop, replied := v.replied + [n], bytesSent := v.bytesSent + n + 28)
  {
    longer, after := TxStep(w, schedule, st, Nothing);
    longer, after := TxStep(w, longer, after, Nothing);
    longer, after := TxStep(w, longer, after, Nothing);
  }

  /** A server that has an encryptor and an address sends what it reads, and counts it. */
  lemma {:induction false} TxTurn(w: World, schedule: seq<Action>, st: State, s: nat, p: ByteString,
                                  nonce: ByteString, output: ByteString) returns (longer: seq<Action>, after: State)
    requires Execute(w, schedule) == Some(st) && |st.clients| == |w.sessions| && st.server.tx == TxTop && st.server.running
    requires st.server.enc == Some(s) && st.server.clientAddr.Some? && p != [] && SealInputs(nonce, p, output)
    ensures schedule <= longer && Execute(w, longer) == Some(after) && after.clients == st.clients
    ensures after.wire == st.wire + [Entry(Reply(s), nonce, p, output)]
    ensures var v := st.server;
            after.server == v.(tunIn := v.tunIn + {p}, replied := v.replied + [|p|], bytesSent := v.bytesSent + |p| + 28)
  {
    longer, after := TxSeals(w, schedule, st, s, p, nonce, output);
    longer, after := TxCounts(w, longer, after);
  }

  /** Without an encryptor or an address the packet is lost. */
  lemma {:induction false} TxLoses(w: World, schedule: seq<Action>, st: State, p: ByteString) returns (longer: seq<Action>, after: State)
    requires Execute(w, schedule) == Some(st) && |st.clients| == |w.sessions| && st.server.tx == TxTop && st.server.running
    requires st.server.enc.None? || st.server.clientAddr.None? || p == []
    ensures schedule <= longer && Execute(w, longer) == Some(after) && after.clients == st.clients && after.wire == st.wire
    ensures after.server == st.server.(tunIn := st.server.tunIn + {p})
  {
    longer, after := TxStep(w, schedule, st, Nothing);
    longer, after := TxStep(w, longer, after, FromTun(p));
    longer, after := TxStep(w, longer, after, Nothing);
    if after.server.tx.TxAddress? {
      longer, after := TxStep(w, longer, after, Nothing);
    }
  }

  // ------------------------------------------------------------ end to end

  /** The network can deliver what it was given, as it was given it. */
  lemma CopyDeliverable(w: World, st: State, k: nat, from: int)
    requires k < |st.wire| && EntryShape(w, st.wire[k])
    ensures Deliverable(w, st, Packet(Datagram(w, st.wire[k]), from, Some(k)))
  {
    var d := Datagram(w, st.wire[k]);
    forall j | 0 <= j < |d| && d[j].origin.Sealed?
      ensures OnWire(w, st, d[j])
    {
      assert d[j] in Datagram(w, st.wire[k]);
    }
  }

  /** From wherever a client and the server are between packets, any packet of the client
      can reach the server's TUN, and both ends count it. */
  lemma {:induction false} PacketArrives(w: World, schedule: seq<Action>, st: State, i: nat, s: nat, p: ByteString,
                      nonce: ByteString, output: ByteString, from: int) returns (longer: seq<Action>, after: State)
    requires WorldOk(w) && Execute(w, schedule) == Some(st) && i < |st.clients| == |w.sessions| && s < |w.sessions|
    requires st.clients[i].up == UpTop && st.clients[i].running && p != [] && SealInputs(nonce, p, output)
    requires st.server.rx == RxTop && st.server.running && st.server.dec == Some(s) && w.sessions[i] == w.sessions[s]
    ensures schedule <= longer && Execute(w, longer) == Some(after) && OnlyClient(st.(server := after.server), after, i)
    ensures p in after.clients[i].tunIn && (s, p) in after.server.tunOut && after.server.clientAddr == Some(from)
    ensures after.clients[i].bytesSent == st.clients[i].bytesSent + |p| + 28
    ensures after.server.bytesReceived == st.server.bytesReceived + |p| + 28
    ensures after.clients[i].running && after.clients[i].down == st.clients[i].down
    ensures after.server == st.server.(clientAddr := after.server.clientAddr, tunOut := after.server.tunOut,
                                       taken := after.server.taken, bytesReceived := after.server.bytesReceived)
  {
    var sent: State;
    longer, sent := UpTurn(w, schedule, st, i, p, nonce, output);
    var e := Entry(Data(i), nonce, p, output);
    var k := |st.wire|;
    assert sent.wire[k] == e;
    var r := Packet(Datagram(w, e), from, Some(k));
    CopyDeliverable(w, sent, k, from);
    OpensAtServer(w, e, s);
    longer, after := RxTurn(w, longer, sent, s, r, p);
  }

  /** And any packet the server reads can reach the TUN of the client whose session its
      encryptor is for. */
  lemma {:induction false} ReplyArrives(w: World, schedule: seq<Action>, st: State, i: nat, s: nat, p: ByteString,
                     nonce: ByteString, output: ByteString) returns (longer: seq<Action>, after: State)
    requires WorldOk(w) && Execute(w, schedule) == Some(st) && i < |st.clients| == |w.sessions| && s < |w.sessions|
    requires st.server.tx == TxTop && st.server.running && st.server.enc == Some(s) && w.sessions[i] == w.sessions[s]
    requires st.server.clientAddr.Some? && p != [] && SealInputs(nonce, p, output)
    requires st.clients[i].down == DownTop && st.clients[i].running
    ensures schedule <= longer && Execute(w, longer) == Some(after)
    ensures |after.clients| == |st.clients| && p in after.server.tunIn && (p, w.serverAddr) in after.clients[i].tunOut
    ensures after.server.bytesSent == st.server.bytesSent + |p| + 28 && after.server.tunOut == st.server.tunOut
    ensures after.clients[i].bytesReceived == st.clients[i].bytesReceived + |p| + 28
    ensures after.clients[i].tunIn == st.clients[i].tunIn
  {
    var sent: State;
    longer, sent := TxTurn(w, schedule, st, s, p, nonce, output);
    var e := Entry(Reply(s), nonce, p, output);
    var k := |st.wire|;
    assert sent.wire[k] == e;
    var r := Packet(Datagram(w, e), w.serverAddr, Some(k));
    CopyDeliverable(w, sent, k, w.serverAddr);
    OpensAtClient(w, e, i);
    longer, after := DownTurn(w, longer, sent, i, r, p);
  }

  /** From a fresh start, for every client and all packets, some schedule carries one
      packet to the server's TUN and another back to the client's. */
  lemma {:induction false} RoundTrip(w: World, i: nat, p: ByteString, q: ByteString, nonce: ByteString,
                                     sealedP: ByteString, sealedQ: ByteString, from: int) returns (schedule: seq<Action>)
    requires WorldOk(w) && i < |w.sessions| && p != [] && q != [] && SealInputs(nonce, p, sealedP) && SealInputs(nonce, q, sealedQ)
    ensures Execute(w, schedule).Some?
    ensures var st := Execute(w, schedule).value;
            |st.clients| == |w.sessions| && p in st.clients[i].tunIn && (i, p) in st.server.tunOut &&
            q in st.server.tunIn && (q, w.serverAddr) in st.clients[i].tunOut
  {
    var st := Start(w);
    schedule := Extend(w, [], st, InstallDecryptor(i));
    st := Apply(w, st, InstallDecryptor(i));
    schedule := Extend(w, schedule, st, InstallEncryptor(i));
    st := Apply(w, st, InstallEncryptor(i));
    schedule, st := PacketArrives(w, schedule, st, i, i, p, nonce, sealedP, from);
    schedule, st := ReplyArrives(w, schedule, st, i, i, q, nonce, sealedQ);
  }

  // ------------------------------------------------- failures, stops, the network

  /** An exception in a read, an encryption or a send costs the packet in hand, and
      nothing else; one in a receive or a write likewise. */
  lemma FailuresAreCaught(w: World, st: State, i: nat)
    requires i < |st.clients| == |w.sessions|
    ensures var c := st.clients[i];
            (c.up.UpRead? || c.up.UpEncrypt? || c.up.UpSend? ==>
               Enabled(w, st, StepUp(i, Raise)) && UpNext(i, c, Raise) == c.(up := UpTop) && Emits(st, StepUp(i, Raise)) == []) &&
            (c.keep.KeepEncrypt? || c.keep.KeepSend? ==>
               Enabled(w, st, StepKeep(i, Raise)) && KeepNext(i, c, Raise) == c.(keep := KeepTop) &&
               Emits(st, StepKeep(i, Raise)) == []) &&
            (c.down.DownWait? || c.down.DownWrite? ==>
               Enabled(w, st, StepDown(i, Raise)) && DownNext(w, i, c, Raise) == c.(down := DownTop))
    ensures var v := st.server;
            (v.rx.RxWait? || v.rx.RxWrite? ==> Enabled(w, st, StepRx(Raise)) && RxNext(w, st, Raise) == v.(rx := RxTop)) &&
            (v.tx.TxRead? || v.tx.TxSend? || (v.tx.TxEncrypt? && v.enc.Some?) ==>
               Enabled(w, st, StepTx(Raise)) && TxNext(v, Raise) == v.(tx := TxTop) && Emits(st, StepTx(Raise)) == [])
  {
  }

  /** A wait that times out, and an empty packet, bring a thread back to the top of its
      loop, and nothing else. */
  lemma TimeoutsAreHarmless(w: World, st: State, i: nat)
    requires i < |st.clients| == |w.sessions|
    ensures var c := st.clients[i];
            (c.up.UpRead? || c.up == UpHave([]) ==>
               Enabled(w, st, StepUp(i, Nothing)) && UpNext(i, c, Nothing) == c.(up := UpTop)) &&
            (c.down.DownWait? ==>
               Enabled(w, st, StepDown(i, Nothing)) && DownNext(w, i, c, Nothing) == c.(down := DownTop))
    ensures var v := st.server;
            (v.rx.RxWait? ==> Enabled(w, st, StepRx(Nothing)) && RxNext(w, st, Nothing) == v.(rx := RxTop)) &&
            (v.tx.TxRead? || v.tx == TxHave([]) ==>
               Enabled(w, st, StepTx(Nothing)) && TxNext(v, Nothing) == v.(tx := TxTop))
  {
  }

  /** A thread ends exactly when it is at the top of its loop with the flag cleared. */
  lemma LoopsEndByFlag(w: World, st: State, i: nat, x: Input)
    requires i < |st.clients| == |w.sessions|
    ensures var c := st.clients[i];
            (Enabled(w, st, StepUp(i, x)) ==> (UpNext(i, c, x).up.UpExit? <==> c.up.UpTop? && !c.running)) &&
            (Enabled(w, st, StepKeep(i, x)) ==> (KeepNext(i, c, x).keep.KeepExit? <==> c.keep.KeepTop? && !c.running)) &&
            (Enabled(w, st, StepDown(i, x)) ==> (DownNext(w, i, c, x).down.DownExit? <==> c.down.DownTop? && !c.running))
    ensures var v := st.server;
            (Enabled(w, st, StepRx(x)) ==> (RxNext(w, st, x).rx.RxExit? <==> v.rx.RxTop? && !v.running)) &&
            (Enabled(w, st, StepTx(x)) ==> (TxNext(v, x).tx.TxExit? <==> v.tx.TxTop? && !v.running))
    ensures st.clients[i].keep.KeepSleep? && !st.clients[i].running && KeepEnabled(st.clients[i].keep, x) ==>
              KeepNext(i, st.clients[i], x).keep == KeepTop
  {
  }

  /** A stop can come at any time; it clears the flag and touches nothing else. */
  lemma {:induction false} StopsCanCome(w: World, schedule: seq<Action>, st: State, i: nat)
    requires Execute(w, schedule) == Some(st) && i < |st.clients| == |w.sessions|
    ensures Execute(w, schedule + [StopClient(i)]) == Some(st.(clients := st.clients[i := st.clients[i].(running := false)]))
    ensures Execute(w, schedule + [StopServer]) == Some(st.(server := st.server.(running := false)))
  {
    assert st.wire + [] == st.wire;
    assert (schedule + [StopClient(i)])[..|schedule|] == schedule && (schedule + [StopServer])[..|schedule|] == schedule;
  }

  /** The network is as free as it can be without sealing: it can inject any bytes of its
      own, splice what it could deliver, cut it, and deliver it again at any later time,
      all under any source address. */
  lemma NetworkIsFree(w: World, st: State, later: State, own: ByteString, a: Packet, b: Packet, n: nat, from: int)
    requires Deliverable(w, st, a) && Deliverable(w, st, b) && n <= |a.d|
    ensures Deliverable(w, st, Packet(Plain(own), from, None))
    ensures Deliverable(w, st, Packet(a.d + b.d, from, None)) && Deliverable(w, st, Packet(a.d[..n], from, None)) &&
            Deliverable(w, st, Packet(a.d[n..], from, None)) && Deliverable(w, st, a.(from := from))
    ensures Grows(st, later) ==> Deliverable(w, later, a)
  {
    var ab := a.d + b.d;
    forall j | 0 <= j < |ab| && ab[j].origin.Sealed?
      ensures OnWire(w, st, ab[j])
    {
      if j < |a.d| {
        assert ab[j] == a.d[j];
      } else {
        assert ab[j] == b.d[j - |a.d|];
      }
    }
    forall j | 0 <= j < |a.d[n..]| && a.d[n..][j].origin.Sealed?
      ensures OnWire(w, st, a.d[n..][j])
    {
      assert a.d[n..][j] == a.d[n + j];
    }
    if Grows(st, later) {
      DeliverableGrows(w, st, later, a);
    }
  }
}
