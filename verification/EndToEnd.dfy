/** The handshake, the registry and the tunnel together: the keys that handshakes return
    are the keys the handlers install and the tunnel's guarantees are about. */
module EndToEnd {
  import opened Bytes
  import opened Crypto
  import H = HandshakeProtocol
  import T = Tunnel
  import R = Registry

  /** One client's handshake with the server, up to some point. */
  datatype Contact = Contact(p: H.Setup, schedule: seq<H.Action>)

  predicate Possible(c: Contact) {
    H.Ready(c.p) && H.Execute(c.p, c.schedule).Some?
  }

  /** The server has accepted the confirmation, whatever became of the client. */
  predicate Served(c: Contact) {
    Possible(c) && H.Confirmed(H.Execute(c.p, c.schedule).value.server).Some?
  }

  /** The client has returned a result too. */
  predicate Completed(c: Contact) {
    Possible(c) &&
    var client := H.Execute(c.p, c.schedule).value.client;
    client.Ended? && client.outcome.Done?
  }

  function ServerResult(c: Contact): SessionKeys
    requires Served(c)
  {
    H.Confirmed(H.Execute(c.p, c.schedule).value.server).value
  }

  function ClientResult(c: Contact): SessionKeys
    requires Completed(c)
  {
    H.Execute(c.p, c.schedule).value.client.outcome.keys
  }

  /** What each side holds, and that no client completes alone. */
  lemma {:induction false} ContactKeys(c: Contact)
    requires Possible(c)
    ensures Served(c) ==> c.p.c.public != c.p.s.public && ServerResult(c) == H.ServerKeys(c.p)
    ensures Completed(c) ==> Served(c) && ClientResult(c) == H.ClientKeys(c.p)
  {
    H.ReachableInv(c.p, c.schedule);
  }

  predicate AllServed(server: ByteString, contacts: seq<Contact>) {
    forall i :: 0 <= i < |contacts| ==> Served(contacts[i]) && contacts[i].p.s.public == server
  }

  function WorldOf(server: ByteString, addr: int, contacts: seq<Contact>): T.World {
    T.World(server, addr, seq(|contacts|, i requires 0 <= i < |contacts| =>
      T.Session(contacts[i].p.c.public, contacts[i].p.s.salt)))
  }

  /** Handshakes the server accepted give the tunnel sessions between distinct keys; the
      server, and every client that completed, holds exactly the keys of its session. */
  lemma {:induction false} HandshakesMakeSessions(server: ByteString, addr: int, contacts: seq<Contact>)
    requires AllServed(server, contacts)
    ensures var w := WorldOf(server, addr, contacts);
            T.WorldOk(w) && forall i :: 0 <= i < |contacts| ==>
              ServerResult(contacts[i]) == T.ServerKeys(w, i) &&
              (Completed(contacts[i]) ==> ClientResult(contacts[i]) == T.ClientKeys(w, i))
  {
    var w := WorldOf(server, addr, contacts);
    forall i | 0 <= i < |contacts|
      ensures contacts[i].p.c.public != server
      ensures ServerResult(contacts[i]) == T.ServerKeys(w, i)
      ensures Completed(contacts[i]) ==> ClientResult(contacts[i]) == T.ClientKeys(w, i)
    {
      ContactKeys(contacts[i]);
    }
  }

  /** A client that never got a result has no keys, so its data thread never runs. */
  predicate OnlyCompletedSend(contacts: seq<Contact>, schedule: seq<T.Action>) {
    forall k :: 0 <= k < |schedule| && schedule[k].StepUp? ==>
      schedule[k].i < |contacts| && Completed(contacts[schedule[k].i])
  }

  /** A client whose data thread takes no step reads nothing. */
  lemma {:induction false} SilentReadsNothing(w: T.World, schedule: seq<T.Action>, i: nat)
    requires T.Execute(w, schedule).Some? && i < |T.Execute(w, schedule).value.clients|
    requires forall k :: 0 <= k < |schedule| && schedule[k].StepUp? ==> schedule[k].i != i
    ensures T.Execute(w, schedule).value.clients[i].tunIn == {}
  {
    if schedule != [] {
      var n := |schedule| - 1;
      assert |T.Execute(w, schedule[..n]).value.clients| == |T.Execute(w, schedule).value.clients|;
      SilentReadsNothing(w, schedule[..n], i);
      T.KeepsReadings(w, T.Execute(w, schedule[..n]).value, schedule[n], i);
    }
  }

  /** From handshake to packet, over every schedule of both, when some clients failed
      after the server had returned: what the server writes to its TUN under the keys of
      one handshake was read by a client whose own handshake returned the mirrored keys. */
  lemma {:induction false} WrittenByAContact(server: ByteString, addr: int, contacts: seq<Contact>, schedule: seq<T.Action>,
                                             s: nat, packet: ByteString)
    requires AllServed(server, contacts) && OnlyCompletedSend(contacts, schedule)
    requires var w := WorldOf(server, addr, contacts);
             T.Execute(w, schedule).Some? && (s, packet) in T.Execute(w, schedule).value.server.tunOut
    ensures var clients := T.Execute(WorldOf(server, addr, contacts), schedule).value.clients;
            packet != [] && s < |contacts| && |clients| == |contacts| &&
            exists i :: 0 <= i < |contacts| && Completed(contacts[i]) && packet in clients[i].tunIn &&
              Mirror(ClientResult(contacts[i]), ServerResult(contacts[s]))
  {
    var w := WorldOf(server, addr, contacts);
    HandshakesMakeSessions(server, addr, contacts);
    T.NothingInvented(w, schedule);
    var st := T.Execute(w, schedule).value;
    assert |w.sessions| == |contacts|;
    var i :| 0 <= i < |st.clients| && w.sessions[i] == w.sessions[s] && packet in st.clients[i].tunIn;
    if !Completed(contacts[i]) {
      SilentReadsNothing(w, schedule, i);
    }
    var session := w.sessions[i];
    DirectionsMirror(session.client, w.server, session.salt, session.salt);
    assert Mirror(ClientResult(contacts[i]), ServerResult(contacts[s]));
  }

  /** And back: what a client writes to its TUN was read from the server's and encrypted
      under the keys of a handshake that mirror the client's own. */
  lemma {:induction false} WrittenForAContact(server: ByteString, addr: int, contacts: seq<Contact>, schedule: seq<T.Action>,
                                              i: nat, packet: ByteString, from: int)
    requires AllServed(server, contacts) && i < |contacts| && Completed(contacts[i])
    requires var w := WorldOf(server, addr, contacts);
             T.Execute(w, schedule).Some? && i < |T.Execute(w, schedule).value.clients| &&
             (packet, from) in T.Execute(w, schedule).value.clients[i].tunOut
    ensures var st := T.Execute(WorldOf(server, addr, contacts), schedule).value;
            packet != [] && from == addr && packet in st.server.tunIn &&
            exists k :: 0 <= k < |st.wire| && st.wire[k].kind.Reply? && st.wire[k].kind.s < |contacts| &&
              st.wire[k].plain == packet && Mirror(ClientResult(contacts[i]), ServerResult(contacts[st.wire[k].kind.s]))
  {
    var w := WorldOf(server, addr, contacts);
    HandshakesMakeSessions(server, addr, contacts);
    T.NothingInvented(w, schedule);
    var st := T.Execute(w, schedule).value;
    assert T.ClientWroteOnly(w, st, i) && T.RepliedTo(w, st, i, (packet, from).0);
    var k :| 0 <= k < |st.wire| && st.wire[k].kind.Reply? && st.wire[k].kind.s < |w.sessions| &&
             w.sessions[st.wire[k].kind.s] == w.sessions[i] && st.wire[k].plain == packet;
    var session := w.sessions[i];
    DirectionsMirror(session.client, w.server, session.salt, session.salt);
    assert Mirror(ClientResult(contacts[i]), ServerResult(contacts[st.wire[k].kind.s]));
  }

  // ---------------------------------------------------- the handlers' key installs

  /** Every handler whose handshake succeeded got the keys of the contact it served. */
  predicate HandlersServe(installs: seq<R.Action>, contacts: seq<Contact>, who: nat -> nat) {
    forall k :: 0 <= k < |installs| && installs[k].Handshake? && installs[k].result.Some? ==>
      var i := who(installs[k].h);
      i < |contacts| && Served(contacts[i]) && installs[k].result.value == ServerResult(contacts[i])
  }

  lemma {:induction false} HandlerKeys(installs: seq<R.Action>, contacts: seq<Contact>, who: nat -> nat, h: nat)
    requires R.Execute(installs).Some? && HandlersServe(installs, contacts, who)
    requires h < |R.Execute(installs).value.handlers| && R.Execute(installs).value.handlers[h].keys.Some?
    ensures who(h) < |contacts| && Served(contacts[who(h)])
    ensures R.Execute(installs).value.handlers[h].keys.value == ServerResult(contacts[who(h)])
  {
    var front, a := installs[..|installs| - 1], installs[|installs| - 1];
    var before := R.Execute(front).value;
    R.StepKeysOf(before, a, h);
    if !(a.Handshake? && a.h == h && a.result.Some?) {
      HandlerKeys(front, contacts, who, h);
    }
  }

  /** The key installs of a tunnel schedule, in order. */
  function Installs(schedule: seq<T.Action>): seq<T.Action> {
    if schedule == [] then []
    else
      var a := schedule[|schedule| - 1];
      Installs(schedule[..|schedule| - 1]) + if a.InstallEncryptor? || a.InstallDecryptor? then [a] else []
  }

  /** The installs the handlers make, as the tunnel sees them. */
  function InstallsOf(installs: seq<R.Action>, who: nat -> nat): seq<T.Action> {
    if installs == [] then []
    else
      var a := installs[|installs| - 1];
      InstallsOf(installs[..|installs| - 1], who) +
      if a.SetEncryptor? then [T.InstallEncryptor(who(a.h))]
      else if a.SetDecryptor? then [T.InstallDecryptor(who(a.h))]
      else []
  }

  /** The sessions of the last installed encryptor and decryptor. */
  function LastOf(schedule: seq<T.Action>): (Option<nat>, Option<nat>) {
    if schedule == [] then (None, None)
    else
      var (enc, dec) := LastOf(schedule[..|schedule| - 1]);
      match schedule[|schedule| - 1]
      case InstallEncryptor(s) => (Some(s), dec)
      case InstallDecryptor(s) => (enc, Some(s))
      case _ => (enc, dec)
  }

  lemma LastOfMore(schedule: seq<T.Action>, a: T.Action)
    ensures LastOf(schedule + [a]) ==
            var (enc, dec) := LastOf(schedule);
            if a.InstallEncryptor? then (Some(a.s), dec) else if a.InstallDecryptor? then (enc, Some(a.s)) else (enc, dec)
  {
    assert (schedule + [a])[..|schedule|] == schedule;
  }

  lemma {:induction false} LastOfInstalls(schedule: seq<T.Action>)
    ensures LastOf(Installs(schedule)) == LastOf(schedule)
  {
    if schedule != [] {
      var front, a := schedule[..|schedule| - 1], schedule[|schedule| - 1];
      LastOfInstalls(front);
      LastOfMore(Installs(front), a);
      assert Installs(front) + [] == Installs(front);
    }
  }

  function Through(o: Option<nat>, who: nat -> nat): Option<nat> {
    match o case None => None case Some(h) => Some(who(h))
  }

  lemma {:induction false} LastOfHandlers(installs: seq<R.Action>, who: nat -> nat)
    ensures LastOf(InstallsOf(installs, who)) == (Through(R.LastEncryptor(installs), who), Through(R.LastDecryptor(installs), who))
  {
    if installs != [] {
      var front, a := installs[..|installs| - 1], installs[|installs| - 1];
      LastOfHandlers(front, who);
      if a.SetEncryptor? {
        LastOfMore(InstallsOf(front, who), T.InstallEncryptor(who(a.h)));
      } else if a.SetDecryptor? {
        LastOfMore(InstallsOf(front, who), T.InstallDecryptor(who(a.h)));
      } else {
        assert InstallsOf(front, who) + [] == InstallsOf(front, who);
      }
    }
  }

  lemma {:induction false} CiphersAreLast(w: T.World, schedule: seq<T.Action>)
    requires T.Execute(w, schedule).Some?
    ensures var v := T.Execute(w, schedule).value.server; (v.enc, v.dec) == LastOf(schedule)
  {
    if schedule != [] {
      var front, a := schedule[..|schedule| - 1], schedule[|schedule| - 1];
      assert schedule == front + [a];
      CiphersAreLast(w, front);
      LastOfMore(front, a);
      T.StepCiphers(w, T.Execute(w, front).value, a);
    }
  }

  /** A tunnel whose installs are those of the handlers encrypts and decrypts for the
      contacts of the handlers that set its ciphers last, with the keys they set. */
  lemma {:induction false} TunnelFollowsRegistry(server: ByteString, addr: int, contacts: seq<Contact>,
                                                 installs: seq<R.Action>, who: nat -> nat, schedule: seq<T.Action>)
    requires AllServed(server, contacts) && R.Execute(installs).Some? && HandlersServe(installs, contacts, who)
    requires T.Execute(WorldOf(server, addr, contacts), schedule).Some? && Installs(schedule) == InstallsOf(installs, who)
    ensures var w, st := WorldOf(server, addr, contacts), R.Execute(installs).value;
            var v := T.Execute(w, schedule).value.server;
            v.enc == Through(R.SetBy(st.encryptor), who) && v.dec == Through(R.SetBy(st.decryptor), who) &&
            (v.enc.Some? ==> v.enc.value < |contacts| && T.ServerKeys(w, v.enc.value).encryptKey == st.encryptor.value.key) &&
            (v.dec.Some? ==> v.dec.value < |contacts| && T.ServerKeys(w, v.dec.value).decryptKey == st.decryptor.value.key)
  {
    CiphersAreLast(WorldOf(server, addr, contacts), schedule);
    LastOfInstalls(schedule);
    LastOfHandlers(installs, who);
    R.SettersBySchedule(installs);
    R.TunnelKeys(installs);
    HandshakesMakeSessions(server, addr, contacts);
    var st := R.Execute(installs).value;
    if st.encryptor.Some? {
      HandlerKeys(installs, contacts, who, st.encryptor.value.setter);
    }
    if st.decryptor.Some? {
      HandlerKeys(installs, contacts, who, st.decryptor.value.setter);
    }
  }

  /** What mixed ciphers do: the server opens the packets of the clients of the decryptor's
      session and of no others, and its replies open at the clients of the encryptor's
      session and at no others; if the two differ, no client has both directions. */
  lemma MixedCiphers(w: T.World, enc: nat, dec: nat, i: nat, nonce: ByteString, plain: ByteString, output: ByteString)
    requires T.WorldOk(w) && enc < |w.sessions| && dec < |w.sessions| && i < |w.sessions| && SealInputs(nonce, plain, output)
    ensures var up := Decrypt(T.ServerKeys(w, dec).decryptKey, Encrypt(T.ClientKeys(w, i).encryptKey, nonce, plain, output));
            var down := Decrypt(T.ClientKeys(w, i).decryptKey, Encrypt(T.ServerKeys(w, enc).encryptKey, nonce, plain, output));
            up == (if w.sessions[i] == w.sessions[dec] then Some(plain) else None) &&
            down == (if w.sessions[i] == w.sessions[enc] then Some(plain) else None) &&
            (w.sessions[enc] != w.sessions[dec] ==> up.None? || down.None?)
  {
    T.OpensAtServer(w, T.Entry(T.Data(i), nonce, plain, output), dec);
    T.OpensAtClient(w, T.Entry(T.Reply(enc), nonce, plain, output), i);
  }
}
