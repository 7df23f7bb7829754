/** server/main.py: any number of `_handle_client` threads sharing the `clients` map,
    the connection counter and the one tunnel whose keys they replace. */
module Registry {
  import opened Bytes
  import opened Crypto

  datatype Addr = Addr(ip: string, port: int)

  /** A handler thread. The three points from Stored on are the three assignments of
      `TunnelServer.set_session_keys`, which no lock protects. */
  datatype Pc = Handshaking | Authenticated | Stored | KeysSet | EncryptorSet | Serving | Closing | Gone

  /** `stored` stays true once the handler has written its entry; `displaced` records
      that another handler of the same IP has since written or deleted that entry. */
  datatype Handler = Handler(pc: Pc, addr: Addr, keys: Option<SessionKeys>, stored: bool, displaced: bool)

  /** A map entry, and the handler that wrote it. */
  datatype Entry = Entry(keys: SessionKeys, addr: Addr, owner: nat)

  /** A cipher of the tunnel: its key, and the handler that installed it. */
  datatype Cipher = Cipher(key: Key, setter: nat)

  datatype State = State(
    running: bool, handlers: seq<Handler>, clients: map<string, Entry>, connections: nat,
    encryptor: Option<Cipher>, decryptor: Option<Cipher>,
    lastInstall: Option<nat>, overlapped: bool)

  const START: State := State(true, [], map[], 0, None, None, None, false)

  datatype Action =
    | Accept(addr: Addr) | Handshake(h: nat, result: Option<SessionKeys>) | Store(h: nat)
    | SetKeys(h: nat) | SetEncryptor(h: nat) | SetDecryptor(h: nat)
    | Wake(h: nat) | Crash(h: nat) | Cleanup(h: nat) | Stop

  predicate At(st: State, h: nat, pc: Pc) {
    h < |st.handlers| && st.handlers[h].pc == pc
  }

  predicate Enabled(st: State, a: Action) {
    match a
    // The listener may already be inside `accept` when the flag is cleared.
    case Accept(_) => true
    case Handshake(h, _) => At(st, h, Handshaking)
    case Store(h) => At(st, h, Authenticated) && st.handlers[h].keys.Some?
    case SetKeys(h) => At(st, h, Stored)
    case SetEncryptor(h) => At(st, h, KeysSet) && st.handlers[h].keys.Some?
    case SetDecryptor(h) => At(st, h, EncryptorSet) && st.handlers[h].keys.Some?
    case Wake(h) => At(st, h, Serving)
    case Crash(h) => At(st, h, Handshaking) || At(st, h, Authenticated) || At(st, h, Stored) || At(st, h, Serving)
    case Cleanup(h) => At(st, h, Closing)
    case Stop => true
  }

  predicate Installing(h: Handler) { h.pc == KeysSet || h.pc == EncryptorSet }

  function Move(st: State, h: nat, pc: Pc): State
    requires h < |st.handlers|
  {
    st.(handlers := st.handlers[h := st.handlers[h].(pc := pc)])
  }

  /** Every other handler of this IP that has an entry loses its claim to it. */
  function Displace(hs: seq<Handler>, ip: string, me: nat): (r: seq<Handler>)
    ensures |r| == |hs|
  {
    seq(|hs|, i requires 0 <= i < |hs| =>
      if i != me && hs[i].addr.ip == ip then hs[i].(displaced := true) else hs[i])
  }

  /** Under the lock: the entry is written and the connection counted. */
  function StoreStep(st: State, h: nat): State
    requires At(st, h, Authenticated) && st.handlers[h].keys.Some?
  {
    var me := st.handlers[h];
    st.(handlers := Displace(st.handlers, me.addr.ip, h)[h := me.(pc := Stored, stored := true, displaced := false)],
        clients := st.clients[me.addr.ip := Entry(me.keys.value, me.addr, h)],
        connections := st.connections + 1)
  }

  /** The `finally` block: whatever entry this IP has is deleted, whoever wrote it. */
  function CleanupStep(st: State, h: nat): State
    requires At(st, h, Closing)
  {
    var me := st.handlers[h];
    st.(handlers := Displace(st.handlers, me.addr.ip, h)[h := me.(pc := Gone)],
        clients := st.clients - {me.addr.ip})
  }

  function Apply(st: State, a: Action): State
    requires Enabled(st, a)
  {
    match a
    case Accept(addr) => st.(handlers := st.handlers + [Handler(Handshaking, addr, None, false, false)])
    case Handshake(h, result) =>
      if result.None? then Move(st, h, Closing)
      else st.(handlers := st.handlers[h := st.handlers[h].(pc := Authenticated, keys := result)])
    case Store(h) => StoreStep(st, h)
    case SetKeys(h) =>
      Move(st, h, KeysSet).(overlapped := st.overlapped || exists i :: 0 <= i < |st.handlers| && Installing(st.handlers[i]))
    case SetEncryptor(h) =>
      Move(st, h, EncryptorSet).(encryptor := Some(Cipher(st.handlers[h].keys.value.encryptKey, h)))
    case SetDecryptor(h) =>
      Move(st, h, Serving).(decryptor := Some(Cipher(st.handlers[h].keys.value.decryptKey, h)), lastInstall := Some(h))
    case Wake(h) => if st.running then st else Move(st, h, Closing)
    case Crash(h) => Move(st, h, Closing)
    case Cleanup(h) => CleanupStep(st, h)
    case Stop => st.(running := false)
  }

  function Execute(schedule: seq<Action>): Option<State> {
    if schedule == [] then Some(START)
    else
      var before := Execute(schedule[..|schedule| - 1]);
      var a := schedule[|schedule| - 1];
      if before.Some? && Enabled(before.value, a) then Some(Apply(before.value, a)) else None
  }

  // ------------------------------------------------------------- the invariant

  predicate HandlerOk(h: Handler) {
    && (h.pc == Handshaking || h.pc == Authenticated ==> !h.stored)
    && (h.pc == Stored || Installing(h) || h.pc == Serving ==> h.stored)
    && (h.pc == Authenticated || h.stored ==> h.keys.Some?)
  }

  /** The entry under `ip` was written by a handler that authenticated from that IP
      and has not ended. */
  predicate EntryOk(st: State, ip: string)
    requires ip in st.clients
  {
    var e := st.clients[ip];
    e.owner < |st.handlers| &&
    var h := st.handlers[e.owner];
    h.stored && h.pc != Gone && h.addr == e.addr && h.addr.ip == ip && h.keys == Some(e.keys)
  }

  predicate Listed(st: State, h: nat)
    requires h < |st.handlers|
  {
    var ip := st.handlers[h].addr.ip;
    ip in st.clients && st.clients[ip].owner == h
  }

  function Successes(hs: seq<Handler>): nat {
    if hs == [] then 0 else Successes(hs[..|hs| - 1]) + if hs[|hs| - 1].stored then 1 else 0
  }

  predicate CipherOk(hs: seq<Handler>, c: Option<Cipher>, encrypt: bool) {
    c.Some? ==>
      c.value.setter < |hs| && hs[c.value.setter].stored && hs[c.value.setter].keys.Some? &&
      var keys := hs[c.value.setter].keys.value;
      c.value.key == if encrypt then keys.encryptKey else keys.decryptKey
  }

  function SetBy(c: Option<Cipher>): Option<nat> {
    match c case None => None case Some(x) => Some(x.setter)
  }

  /** As long as no two installs have overlapped, both ciphers follow the last one. */
  predicate InstallsOk(hs: seq<Handler>, encryptor: Option<Cipher>, decryptor: Option<Cipher>, last: Option<nat>) {
    && (forall i, j :: 0 <= i < j < |hs| ==> !(Installing(hs[i]) && Installing(hs[j])))
    && SetBy(decryptor) == last
    && (SetBy(encryptor) == last ||
        exists i :: 0 <= i < |hs| && hs[i].pc == EncryptorSet && SetBy(encryptor) == Some(i))
    && (forall i :: 0 <= i < |hs| && hs[i].pc == KeysSet ==> SetBy(encryptor) == last)
    && (forall i :: 0 <= i < |hs| && hs[i].pc == EncryptorSet ==> SetBy(encryptor) == Some(i))
  }

  predicate MapOk(st: State) {
    && HandlersOk(st.handlers)
    && (forall ip :: ip in st.clients ==> EntryOk(st, ip))
    && (forall i :: 0 <= i < |st.handlers| ==> ListedOk(st, i))
    && st.connections == Successes(st.handlers)
  }

  predicate TunnelOk(st: State) {
    && CipherOk(st.handlers, st.encryptor, true) && CipherOk(st.handlers, st.decryptor, false)
    && (!st.overlapped ==> InstallsOk(st.handlers, st.encryptor, st.decryptor, st.lastInstall))
  }

  predicate Inv(st: State) { MapOk(st) && TunnelOk(st) }

  lemma {:induction false} SuccessesUpdate(hs: seq<Handler>, i: nat, h: Handler)
    requires i < |hs|
    ensures Successes(hs[i := h]) + (if hs[i].stored then 1 else 0) == Successes(hs) + (if h.stored then 1 else 0)
  {
    var n := |hs| - 1;
    if i < n {
      SuccessesUpdate(hs[..n], i, h);
      assert hs[i := h][..n] == hs[..n][i := h];
    } else {
      assert hs[i := h][..n] == hs[..n];
    }
  }

  lemma {:induction false} SuccessesSame(hs: seq<Handler>, gs: seq<Handler>)
    requires |hs| == |gs| && forall i :: 0 <= i < |hs| ==> hs[i].stored == gs[i].stored
    ensures Successes(hs) == Successes(gs)
  {
    if hs != [] {
      SuccessesSame(hs[..|hs| - 1], gs[..|gs| - 1]);
    }
  }

  lemma MapAccept(st: State, addr: Addr)
    requires MapOk(st) && Enabled(st, Accept(addr))
    ensures MapOk(Apply(st, Accept(addr)))
  {
    var after := Apply(st, Accept(addr));
    assert after.handlers[..|st.handlers|] == st.handlers;
    forall ip | ip in after.clients ensures EntryOk(after, ip) { assert EntryOk(st, ip); }
    forall i | 0 <= i < |after.handlers| ensures ListedOk(after, i) {
      if i < |st.handlers| { assert ListedOk(st, i); }
    }
  }

  /** Moving one handler along leaves the map and the counter in order. */
  lemma MapMove(st: State, h: nat, to: Handler)
    requires MapOk(st) && h < |st.handlers| && HandlerOk(to)
    requires var me := st.handlers[h];
             to.stored == me.stored && to.addr == me.addr && to.displaced == me.displaced &&
             (me.stored ==> to.keys == me.keys) && to.pc != Gone && me.pc != Gone
    ensures MapOk(st.(handlers := st.handlers[h := to]))
  {
    var after := st.(handlers := st.handlers[h := to]);
    SuccessesUpdate(st.handlers, h, to);
    forall ip | ip in after.clients ensures EntryOk(after, ip) { assert EntryOk(st, ip); }
    forall i | 0 <= i < |after.handlers| ensures ListedOk(after, i) {
      if i < |st.handlers| { assert ListedOk(st, i); }
    }
  }

  predicate HandlersOk(hs: seq<Handler>) {
    forall i :: 0 <= i < |hs| ==> HandlerOk(hs[i])
  }

  predicate ListedOk(st: State, i: nat)
    requires i < |st.handlers|
  {
    st.handlers[i].stored && st.handlers[i].pc != Gone ==> (Listed(st, i) <==> !st.handlers[i].displaced)
  }

  /** What a store or a cleanup does to the other handlers. */
  predicate OthersDisplaced(before: seq<Handler>, after: seq<Handler>, h: nat)
    requires h < |before|
  {
    |after| == |before| && after[h].addr == before[h].addr &&
    forall i :: 0 <= i < |before| && i != h ==>
      after[i] == if before[i].addr.ip == before[h].addr.ip then before[i].(displaced := true) else before[i]
  }

  lemma StepDisplaces(st: State, h: nat)
    ensures At(st, h, Authenticated) && st.handlers[h].keys.Some? ==>
              OthersDisplaced(st.handlers, StoreStep(st, h).handlers, h)
    ensures At(st, h, Closing) ==> OthersDisplaced(st.handlers, CleanupStep(st, h).handlers, h)
  {
  }

  lemma MapStore(st: State, h: nat)
    requires MapOk(st) && Enabled(st, Store(h))
    ensures MapOk(StoreStep(st, h))
  {
    var after := StoreStep(st, h);
    StepDisplaces(st, h);
    DisplacedOk(st, after, h);
    forall ip | ip in after.clients ensures EntryOk(after, ip) {
      if ip != st.handlers[h].addr.ip { assert EntryOk(st, ip); }
    }
    forall i | 0 <= i < |after.handlers| ensures ListedOk(after, i) {
      if i != h { assert ListedOk(st, i); }
    }
  }

  lemma MapCleanup(st: State, h: nat)
    requires MapOk(st) && Enabled(st, Cleanup(h))
    ensures MapOk(CleanupStep(st, h))
  {
    var after := CleanupStep(st, h);
    StepDisplaces(st, h);
    DisplacedOk(st, after, h);
    forall ip | ip in after.clients ensures EntryOk(after, ip) {
      assert EntryOk(st, ip);
      assert st.clients[ip].owner != h;
    }
    forall i | 0 <= i < |after.handlers| ensures ListedOk(after, i) {
      CleanupListed(st, h, i);
    }
  }

  lemma CleanupListed(st: State, h: nat, i: nat)
    requires MapOk(st) && At(st, h, Closing) && i < |st.handlers|
    requires OthersDisplaced(st.handlers, CleanupStep(st, h).handlers, h)
    ensures ListedOk(CleanupStep(st, h), i)
  {
    assert ListedOk(st, i);
  }

  lemma DisplacedOk(st: State, after: State, h: nat)
    requires MapOk(st) && h < |st.handlers| && OthersDisplaced(st.handlers, after.handlers, h) && HandlerOk(after.handlers[h])
    ensures HandlersOk(after.handlers)
    ensures Successes(after.handlers) + (if st.handlers[h].stored then 1 else 0) ==
            st.connections + (if after.handlers[h].stored then 1 else 0)
  {
    forall i | 0 <= i < |after.handlers| ensures HandlerOk(after.handlers[i]) { assert HandlerOk(st.handlers[i]); }
    SuccessesUpdate(st.handlers, h, after.handlers[h]);
    SuccessesSame(st.handlers[h := after.handlers[h]], after.handlers);
  }

  /** Steps that start or finish no assignment leave the ciphers' history in order. */
  lemma TunnelFrame(st: State, hs: seq<Handler>)
    requires TunnelOk(st) && |st.handlers| <= |hs|
    requires forall i :: 0 <= i < |st.handlers| ==>
               (st.handlers[i].stored ==> hs[i].stored && hs[i].keys == st.handlers[i].keys) &&
               (hs[i].pc == KeysSet <==> st.handlers[i].pc == KeysSet) &&
               (hs[i].pc == EncryptorSet <==> st.handlers[i].pc == EncryptorSet)
    requires forall i :: |st.handlers| <= i < |hs| ==> !Installing(hs[i])
    ensures TunnelOk(st.(handlers := hs))
  {
    if !st.overlapped && SetBy(st.encryptor) != st.lastInstall {
      var i :| 0 <= i < |st.handlers| && st.handlers[i].pc == EncryptorSet && SetBy(st.encryptor) == Some(i);
      assert hs[i].pc == EncryptorSet;
    }
  }

  lemma TunnelInstall(st: State, a: Action)
    requires TunnelOk(st) && Enabled(st, a) && (a.SetKeys? || a.SetEncryptor? || a.SetDecryptor?)
    requires HandlerOk(st.handlers[a.h])
    ensures TunnelOk(Apply(st, a))
  {
    var after := Apply(st, a);
    assert after.handlers[a.h].stored;
  }

  lemma InstallKeepsInv(st: State, a: Action)
    requires Inv(st) && Enabled(st, a) && (a.SetKeys? || a.SetEncryptor? || a.SetDecryptor?)
    ensures Inv(Apply(st, a))
  {
    var after := Apply(st, a);
    TunnelInstall(st, a);
    var moved := st.(handlers := after.handlers);
    MapMove(st, a.h, after.handlers[a.h]);
    MapFrame(moved, after);
  }

  /** The map's invariant depends on the handlers, the map and the counter only. */
  lemma MapFrame(st: State, after: State)
    requires MapOk(st) && after.handlers == st.handlers && after.clients == st.clients && after.connections == st.connections
    ensures MapOk(after)
  {
    forall ip | ip in after.clients ensures EntryOk(after, ip) { assert EntryOk(st, ip); }
    forall i | 0 <= i < |after.handlers| ensures ListedOk(after, i) { assert ListedOk(st, i); }
  }

  /** A handler that only moves along. */
  lemma MoveKeepsInv(st: State, h: nat, to: Handler)
    requires Inv(st) && h < |st.handlers| && HandlerOk(to) && !Installing(st.handlers[h]) && !Installing(to)
    requires var me := st.handlers[h];
             to.stored == me.stored && to.addr == me.addr && to.displaced == me.displaced &&
             (me.stored ==> to.keys == me.keys) && to.pc != Gone && me.pc != Gone
    ensures Inv(st.(handlers := st.handlers[h := to]))
  {
    MapMove(st, h, to);
    TunnelFrame(st, st.handlers[h := to]);
  }

  lemma StoreKeepsInv(st: State, h: nat)
    requires Inv(st) && Enabled(st, Store(h))
    ensures Inv(StoreStep(st, h))
  {
    StepDisplaces(st, h);
    MapStore(st, h);
    assert HandlerOk(st.handlers[h]);
    TunnelFrame(st, StoreStep(st, h).handlers);
  }

  lemma CleanupKeepsInv(st: State, h: nat)
    requires Inv(st) && Enabled(st, Cleanup(h))
    ensures Inv(CleanupStep(st, h))
  {
    StepDisplaces(st, h);
    MapCleanup(st, h);
    TunnelFrame(st, CleanupStep(st, h).handlers);
  }

  lemma AcceptKeepsInv(st: State, addr: Addr)
    requires Inv(st) && Enabled(st, Accept(addr))
    ensures Inv(Apply(st, Accept(addr)))
  {
    MapAccept(st, addr);
    TunnelFrame(st, Apply(st, Accept(addr)).handlers);
  }

  lemma HandshakeKeepsInv(st: State, h: nat, result: Option<SessionKeys>)
    requires Inv(st) && Enabled(st, Handshake(h, result))
    ensures Inv(Apply(st, Handshake(h, result)))
  {
    assert HandlerOk(st.handlers[h]);
    MoveKeepsInv(st, h, Apply(st, Handshake(h, result)).handlers[h]);
  }

  lemma EndKeepsInv(st: State, h: nat)
    requires Inv(st) && h < |st.handlers| && !Installing(st.handlers[h])
    requires st.handlers[h].pc != Closing && st.handlers[h].pc != Gone
    ensures Inv(Move(st, h, Closing))
  {
    assert HandlerOk(st.handlers[h]);
    MoveKeepsInv(st, h, st.handlers[h].(pc := Closing));
  }

  lemma StepKeepsInv(st: State, a: Action)
    requires Inv(st) && Enabled(st, a)
    ensures Inv(Apply(st, a))
  {
    match a {
      case Accept(addr) => AcceptKeepsInv(st, addr);
      case Handshake(h, result) => HandshakeKeepsInv(st, h, result);
      case Wake(h) => if !st.running { EndKeepsInv(st, h); }
      case Crash(h) => EndKeepsInv(st, h);
      case Store(h) => StoreKeepsInv(st, h);
      case Cleanup(h) => CleanupKeepsInv(st, h);
      case Stop => MapFrame(st, Apply(st, a));
      case _ => InstallKeepsInv(st, a);
    }
  }

  lemma {:induction false} ReachableInv(schedule: seq<Action>)
    requires Execute(schedule).Some?
    ensures Inv(Execute(schedule).value)
  {
    if schedule == [] {
    } else {
      var before := schedule[..|schedule| - 1];
      ReachableInv(before);
      StepKeepsInv(Execute(before).value, schedule[|schedule| - 1]);
    }
  }

  // -------------------------------------------------------------- main results

  /** Over any number of interleaved handlers: every entry was written by a handler
      that authenticated from that IP and has not ended, `connections` counts the
      successful handshakes that reached the map, and once all handlers have ended
      the map is empty. */
  lemma {:induction false} RegistryConsistent(schedule: seq<Action>)
    requires Execute(schedule).Some?
    ensures var st := Execute(schedule).value;
            (forall ip :: ip in st.clients ==> EntryOk(st, ip)) && st.connections == Successes(st.handlers)
    ensures var st := Execute(schedule).value;
            (forall i :: 0 <= i < |st.handlers| ==> st.handlers[i].pc == Gone) ==> st.clients == map[]
  {
    ReachableInv(schedule);
  }

  /** Another handler of the same IP stores its entry or cleans up. */
  predicate Disturbs(hs: seq<Handler>, a: Action, h: nat)
    requires h < |hs|
  {
    (a.Store? || a.Cleanup?) && a.h != h && a.h < |hs| && hs[a.h].addr.ip == hs[h].addr.ip
  }

  /** The schedule disturbs `h` after `h` has stored its entry. */
  predicate DisturbedSince(schedule: seq<Action>, hs: seq<Handler>, h: nat)
    requires h < |hs|
  {
    exists j, k :: 0 <= j < k < |schedule| && schedule[j] == Store(h) && Disturbs(hs, schedule[k], h)
  }

  predicate SameAddresses(hs: seq<Handler>, gs: seq<Handler>) {
    |hs| <= |gs| && forall i :: 0 <= i < |hs| ==> gs[i].addr == hs[i].addr
  }

  lemma StepAddresses(st: State, a: Action)
    requires Enabled(st, a)
    ensures SameAddresses(st.handlers, Apply(st, a).handlers)
  {
    if a.Store? || a.Cleanup? {
      StepDisplaces(st, a.h);
    }
  }

  /** A handler stores by its Store only. */
  lemma StepStores(st: State, a: Action, h: nat)
    requires Enabled(st, a) && h < |Apply(st, a).handlers|
    ensures Apply(st, a).handlers[h].stored <==> a == Store(h) || (h < |st.handlers| && st.handlers[h].stored)
  {
    if a.Store? || a.Cleanup? {
      StepDisplaces(st, a.h);
    }
  }

  /** And is displaced by what disturbs it. */
  lemma StepDisturbs(st: State, a: Action, h: nat)
    requires Enabled(st, a) && h < |st.handlers|
    ensures h < |Apply(st, a).handlers|
    ensures Apply(st, a).handlers[h].displaced <==>
              a != Store(h) && (st.handlers[h].displaced || Disturbs(st.handlers, a, h))
  {
    if a.Store? || a.Cleanup? {
      StepDisplaces(st, a.h);
    }
  }

  /** A handler has stored exactly if its Store is in the schedule. */
  lemma {:induction false} StoredInSchedule(schedule: seq<Action>, h: nat)
    requires Execute(schedule).Some?
    ensures Store(h) in schedule <==>
              h < |Execute(schedule).value.handlers| && Execute(schedule).value.handlers[h].stored
  {
    if schedule != [] {
      var front, a := schedule[..|schedule| - 1], schedule[|schedule| - 1];
      assert schedule == front + [a];
      StoredInSchedule(front, h);
      StepAddresses(Execute(front).value, a);
      if h < |Apply(Execute(front).value, a).handlers| {
        StepStores(Execute(front).value, a, h);
      }
    }
  }

  lemma DisturbedMore(front: seq<Action>, a: Action, hs: seq<Handler>, h: nat)
    requires h < |hs| && a != Store(h) && Store(h) in front
    ensures DisturbedSince(front + [a], hs, h) <==> DisturbedSince(front, hs, h) || Disturbs(hs, a, h)
  {
    var all, n := front + [a], |front|;
    if DisturbedSince(all, hs, h) {
      var j, k :| 0 <= j < k < |all| && all[j] == Store(h) && Disturbs(hs, all[k], h);
      assert k < n ==> front[j] == Store(h) && Disturbs(hs, front[k], h);
    }
    if DisturbedSince(front, hs, h) {
      var j, k :| 0 <= j < k < |front| && front[j] == Store(h) && Disturbs(hs, front[k], h);
      assert all[j] == Store(h) && Disturbs(hs, all[k], h);
    }
    if Disturbs(hs, a, h) {
      var j :| 0 <= j < n && front[j] == Store(h);
      assert all[j] == Store(h) && Disturbs(hs, all[n], h);
    }
  }

  /** Nothing before its Store disturbs a handler, since it stores once. */
  lemma UndisturbedAtStore(front: seq<Action>, hs: seq<Handler>, h: nat)
    requires h < |hs| && Store(h) !in front
    ensures !DisturbedSince(front + [Store(h)], hs, h)
  {
    forall j | 0 <= j < |front|
      ensures (front + [Store(h)])[j] != Store(h)
    {
      assert (front + [Store(h)])[j] == front[j];
    }
  }

  /** The bit says what the schedule did. */
  lemma {:induction false} DisplacedExactly(schedule: seq<Action>, hs: seq<Handler>, h: nat)
    requires Execute(schedule).Some? && SameAddresses(Execute(schedule).value.handlers, hs)
    requires h < |Execute(schedule).value.handlers| && Execute(schedule).value.handlers[h].stored
    ensures Execute(schedule).value.handlers[h].displaced <==> DisturbedSince(schedule, hs, h)
  {
    var front, a := schedule[..|schedule| - 1], schedule[|schedule| - 1];
    var before := Execute(front).value;
    assert schedule == front + [a];
    ReachableInv(front);
    StoredInSchedule(front, h);
    LastStep(before, a, hs, h);
    if a == Store(h) {
      UndisturbedAtStore(front, hs, h);
    } else {
      DisplacedExactly(front, hs, h);
      DisturbedMore(front, a, hs, h);
    }
  }

  lemma LastStep(before: State, a: Action, hs: seq<Handler>, h: nat)
    requires Inv(before) && Enabled(before, a) && SameAddresses(Apply(before, a).handlers, hs)
    requires h < |Apply(before, a).handlers| && Apply(before, a).handlers[h].stored
    ensures SameAddresses(before.handlers, hs) && h < |before.handlers|
    ensures before.handlers[h].stored <==> a != Store(h)
    ensures Apply(before, a).handlers[h].displaced <==>
              a != Store(h) && (before.handlers[h].displaced || Disturbs(hs, a, h))
  {
    StepStores(before, a, h);
    StepAddresses(before, a);
    assert HandlerOk(before.handlers[h]);
    StepDisturbs(before, a, h);
  }

  /** A live client is listed under its own entry exactly when, since it stored, no other
      handler of its IP has stored an entry or cleaned up. */
  lemma {:induction false} ListedExactly(schedule: seq<Action>, h: nat)
    requires Execute(schedule).Some? && h < |Execute(schedule).value.handlers|
    requires var me := Execute(schedule).value.handlers[h]; me.stored && me.pc != Gone
    ensures var st := Execute(schedule).value;
            Listed(st, h) <==> !DisturbedSince(schedule, st.handlers, h)
  {
    ReachableInv(schedule);
    assert ListedOk(Execute(schedule).value, h);
    DisplacedExactly(schedule, Execute(schedule).value.handlers, h);
  }

  /** A handler gets its keys from its handshake and keeps them. */
  lemma StepKeysOf(st: State, a: Action, h: nat)
    requires Enabled(st, a) && h < |Apply(st, a).handlers|
    ensures Apply(st, a).handlers[h].keys ==
            if a.Handshake? && a.h == h && a.result.Some? then a.result
            else if h < |st.handlers| then st.handlers[h].keys
            else None
  {
    if a.Store? || a.Cleanup? {
      StepDisplaces(st, a.h);
    }
  }

  /** The handler of the last `SetEncryptor`, and of the last `SetDecryptor`. */
  function LastEncryptor(schedule: seq<Action>): Option<nat> {
    if schedule == [] then None
    else
      var a := schedule[|schedule| - 1];
      if a.SetEncryptor? then Some(a.h) else LastEncryptor(schedule[..|schedule| - 1])
  }

  function LastDecryptor(schedule: seq<Action>): Option<nat> {
    if schedule == [] then None
    else
      var a := schedule[|schedule| - 1];
      if a.SetDecryptor? then Some(a.h) else LastDecryptor(schedule[..|schedule| - 1])
  }

  lemma StepSetters(st: State, a: Action)
    requires Enabled(st, a)
    ensures SetBy(Apply(st, a).encryptor) == if a.SetEncryptor? then Some(a.h) else SetBy(st.encryptor)
    ensures SetBy(Apply(st, a).decryptor) == if a.SetDecryptor? then Some(a.h) else SetBy(st.decryptor)
  {
  }

  lemma {:induction false} SettersBySchedule(schedule: seq<Action>)
    requires Execute(schedule).Some?
    ensures var st := Execute(schedule).value;
            SetBy(st.encryptor) == LastEncryptor(schedule) && SetBy(st.decryptor) == LastDecryptor(schedule)
  {
    if schedule != [] {
      var front := schedule[..|schedule| - 1];
      SettersBySchedule(front);
      StepSetters(Execute(front).value, schedule[|schedule| - 1]);
    }
  }

  /** By this point `h` has begun to install its keys and has not finished. */
  predicate InstallOpen(schedule: seq<Action>, h: nat) {
    SetKeys(h) in schedule && SetDecryptor(h) !in schedule
  }

  /** Some install begins while another is open. */
  ghost predicate Overlap(schedule: seq<Action>) {
    exists k, h :: 0 <= k < |schedule| && schedule[k].SetKeys? && InstallOpen(schedule[..k], h)
  }

  predicate BeforeInstall(pc: Pc) { pc == Handshaking || pc == Authenticated || pc == Stored }

  /** What the schedule says of an install, the handler's place says too. */
  predicate InstallPlaced(schedule: seq<Action>, hs: seq<Handler>, h: nat) {
    && (InstallOpen(schedule, h) <==> h < |hs| && Installing(hs[h]))
    && (SetKeys(h) in schedule ==> h < |hs| && !BeforeInstall(hs[h].pc))
    && (SetDecryptor(h) in schedule ==> SetKeys(h) in schedule)
    && (h < |hs| && hs[h].pc == Serving ==> SetDecryptor(h) in schedule)
  }

  /** Any step of a handler but its own leaves its place alone. */
  lemma OthersStay(st: State, a: Action, h: nat)
    requires Enabled(st, a) && h < |st.handlers|
    requires a.Accept? || a.Stop? || a.h != h
    ensures h < |Apply(st, a).handlers| && Apply(st, a).handlers[h].pc == st.handlers[h].pc
  {
    if a.Store? || a.Cleanup? {
      StepDisplaces(st, a.h);
    }
  }

  lemma StepPlaced(front: seq<Action>, st: State, a: Action, h: nat)
    requires Enabled(st, a) && InstallPlaced(front, st.handlers, h)
    ensures InstallPlaced(front + [a], Apply(st, a).handlers, h)
  {
    StepAddresses(st, a);
    if h < |st.handlers| && (a.Accept? || a.Stop? || a.h != h) {
      OthersStay(st, a, h);
    }
  }

  lemma {:induction false} InstallsBySchedule(schedule: seq<Action>, h: nat)
    requires Execute(schedule).Some?
    ensures InstallPlaced(schedule, Execute(schedule).value.handlers, h)
  {
    if schedule != [] {
      var front, a := schedule[..|schedule| - 1], schedule[|schedule| - 1];
      assert schedule == front + [a];
      InstallsBySchedule(front, h);
      StepPlaced(front, Execute(front).value, a, h);
    }
  }

  lemma OverlapMore(front: seq<Action>, a: Action)
    ensures Overlap(front + [a]) <==> Overlap(front) || (a.SetKeys? && exists h :: InstallOpen(front, h))
  {
    var all, n := front + [a], |front|;
    assert all[..n] == front;
    if k, h :| 0 <= k < |front| && front[k].SetKeys? && InstallOpen(front[..k], h) {
      assert all[..k] == front[..k] && all[k] == front[k];
    }
    if k, h :| 0 <= k < |all| && all[k].SetKeys? && InstallOpen(all[..k], h) {
      if k < n {
        assert all[..k] == front[..k] && all[k] == front[k];
      }
    }
    if a.SetKeys? && exists h :: InstallOpen(front, h) {
      var h :| InstallOpen(front, h);
      assert all[n].SetKeys? && InstallOpen(all[..n], h);
    }
  }

  lemma {:induction false} OverlappedBySchedule(schedule: seq<Action>)
    requires Execute(schedule).Some?
    ensures Execute(schedule).value.overlapped <==> Overlap(schedule)
  {
    if schedule != [] {
      var front, a := schedule[..|schedule| - 1], schedule[|schedule| - 1];
      var before := Execute(front).value;
      assert schedule == front + [a];
      OverlappedBySchedule(front);
      OverlapMore(front, a);
      if a.SetKeys? {
        SomeInstallOpen(front);
      }
    }
  }

  lemma SomeInstallOpen(schedule: seq<Action>)
    requires Execute(schedule).Some?
    ensures var hs := Execute(schedule).value.handlers;
            (exists h :: InstallOpen(schedule, h)) <==> exists i :: 0 <= i < |hs| && Installing(hs[i])
  {
    var hs := Execute(schedule).value.handlers;
    if h :| InstallOpen(schedule, h) {
      InstallsBySchedule(schedule, h);
    }
    if i :| 0 <= i < |hs| && Installing(hs[i]) {
      InstallsBySchedule(schedule, i);
    }
  }

  /** Each cipher of the tunnel always belongs to a successful handshake. Both belong to
      the same one exactly when the last encryptor and the last decryptor were set by the
      same handler; so it is whenever no install is open and none ever began while
      another was. */
  lemma {:induction false} TunnelKeys(schedule: seq<Action>)
    requires Execute(schedule).Some?
    ensures var st := Execute(schedule).value;
            CipherOk(st.handlers, st.encryptor, true) && CipherOk(st.handlers, st.decryptor, false)
    ensures var st := Execute(schedule).value;
            SetBy(st.encryptor) == SetBy(st.decryptor) <==> LastEncryptor(schedule) == LastDecryptor(schedule)
    ensures !Overlap(schedule) && (forall h :: !InstallOpen(schedule, h)) ==>
              LastEncryptor(schedule) == LastDecryptor(schedule) == Execute(schedule).value.lastInstall
  {
    ReachableInv(schedule);
    SettersBySchedule(schedule);
    OverlappedBySchedule(schedule);
    SomeInstallOpen(schedule);
  }

  // ------------------------------------------------------ how a handler lives

  /** The flag is down exactly once the server has been stopped. */
  lemma {:induction false} RunningExactly(schedule: seq<Action>)
    requires Execute(schedule).Some?
    ensures Execute(schedule).value.running <==> Stop !in schedule
  {
    if schedule != [] {
      var front, a := schedule[..|schedule| - 1], schedule[|schedule| - 1];
      assert schedule == front + [a];
      RunningExactly(front);
      assert Apply(Execute(front).value, a).running <==> Execute(front).value.running && a != Stop;
    }
  }

  /** How one step can end a handler's work. */
  predicate EndsBy(st: State, a: Action, h: nat)
    requires h < |st.handlers|
  {
    a == Crash(h) || (a == Wake(h) && !st.running && st.handlers[h].pc == Serving) || a == Handshake(h, None)
  }

  predicate Ending(pc: Pc) { pc == Closing || pc == Gone }

  lemma StepEnds(st: State, a: Action, h: nat)
    requires Enabled(st, a) && h < |Apply(st, a).handlers|
    ensures Ending(Apply(st, a).handlers[h].pc) <==>
              h < |st.handlers| && (Ending(st.handlers[h].pc) || EndsBy(st, a, h))
    ensures h >= |st.handlers| ==> Apply(st, a).handlers[h].pc == Handshaking
  {
    if a.Store? || a.Cleanup? {
      StepDisplaces(st, a.h);
    }
  }

  /** A handler that leaves its work has failed its handshake, hit an exception, or been
      stopped; so one whose handshake succeeded serves until the server stops or it hits an
      exception. */
  lemma {:induction false} EndsOnlyWhenStopped(schedule: seq<Action>, h: nat)
    requires Execute(schedule).Some? && h < |Execute(schedule).value.handlers|
    requires Ending(Execute(schedule).value.handlers[h].pc)
    ensures Stop in schedule || Crash(h) in schedule || Handshake(h, None) in schedule
    ensures Execute(schedule).value.handlers[h].keys.Some? ==> Stop in schedule || Crash(h) in schedule
  {
    var front, a := schedule[..|schedule| - 1], schedule[|schedule| - 1];
    var before := Execute(front).value;
    assert schedule == front + [a];
    StepEnds(before, a, h);
    StepKeysOf(before, a, h);
    if Ending(before.handlers[h].pc) {
      EndsOnlyWhenStopped(front, h);
      NoKeysInTheEnd(before, a, h);
    } else {
      ReachableInv(front);
      RunningExactly(front);
      NoKeysYet(front, h);
    }
  }

  /** Nothing gives an ending handler keys. */
  lemma NoKeysInTheEnd(st: State, a: Action, h: nat)
    requires Enabled(st, a) && h < |st.handlers| && Ending(st.handlers[h].pc)
    ensures h < |Apply(st, a).handlers| && Apply(st, a).handlers[h].keys == st.handlers[h].keys
  {
    StepAddresses(st, a);
    StepKeysOf(st, a, h);
  }

  /** A handler that has not finished its handshake has no keys. */
  lemma {:induction false} NoKeysYet(schedule: seq<Action>, h: nat)
    requires Execute(schedule).Some? && h < |Execute(schedule).value.handlers|
    ensures Execute(schedule).value.handlers[h].pc == Handshaking ==> Execute(schedule).value.handlers[h].keys == None
  {
    if schedule != [] {
      var front, a := schedule[..|schedule| - 1], schedule[|schedule| - 1];
      if h < |Execute(front).value.handlers| {
        NoKeysYet(front, h);
        StepStaysHandshaking(Execute(front).value, a, h);
      }
      StepKeysOf(Execute(front).value, a, h);
    }
  }

  lemma StepStaysHandshaking(st: State, a: Action, h: nat)
    requires Enabled(st, a) && h < |Apply(st, a).handlers| && h < |st.handlers|
    ensures Apply(st, a).handlers[h].pc == Handshaking ==> st.handlers[h].pc == Handshaking && !(a.Handshake? && a.h == h)
  {
    if a.Store? || a.Cleanup? {
      StepDisplaces(st, a.h);
    }
  }

  lemma Extend(schedule: seq<Action>, st: State, a: Action) returns (longer: seq<Action>, after: State)
    requires Execute(schedule) == Some(st) && Enabled(st, a)
    ensures longer == schedule + [a] && after == Apply(st, a) && Execute(longer) == Some(after)
  {
    longer, after := schedule + [a], Apply(st, a);
    assert longer[..|schedule|] == schedule;
  }

  lemma OneClient(a: Addr, keys: SessionKeys) returns (schedule: seq<Action>, st: State)
    ensures Execute(schedule) == Some(st) && st.running && !st.overlapped && st.encryptor == None && st.decryptor == None
    ensures st.handlers == [Handler(Stored, a, Some(keys), true, false)] && st.clients == map[a.ip := Entry(keys, a, 0)]
  {
    schedule, st := [], START;
    schedule, st := Extend(schedule, st, Accept(a));
    schedule, st := Extend(schedule, st, Handshake(0, Some(keys)));
    schedule, st := Extend(schedule, st, Store(0));
  }

  lemma TwoClients(a: Addr, b: Addr, j: SessionKeys, k: SessionKeys) returns (schedule: seq<Action>, st: State)
    ensures Execute(schedule) == Some(st) && st.encryptor == None && st.decryptor == None && |st.handlers| == 2
    ensures st.handlers[0].pc == Stored && st.handlers[0].keys == Some(j)
    ensures st.handlers[1].pc == Stored && st.handlers[1].keys == Some(k)
  {
    schedule, st := OneClient(a, j);
    schedule, st := Extend(schedule, st, Accept(b));
    schedule, st := Extend(schedule, st, Handshake(1, Some(k)));
    schedule, st := Extend(schedule, st, Store(1));
  }

  /** A handshake that fails deletes the entry of a live client of the same IP. */
  lemma FailedHandshakeEvicts(a: Addr, b: Addr, keys: SessionKeys) returns (schedule: seq<Action>)
    requires a.ip == b.ip
    ensures Execute(schedule).Some?
    ensures var st := Execute(schedule).value;
            st.running && |st.handlers| == 2 && st.handlers[0].stored && st.handlers[0].pc != Gone &&
            !st.handlers[1].stored && st.clients == map[]
  {
    var st: State;
    schedule, st := OneClient(a, keys);
    schedule, st := Extend(schedule, st, Accept(b));
    schedule, st := Extend(schedule, st, Handshake(1, None));
    schedule, st := Extend(schedule, st, Cleanup(1));
  }

  /** Two installs that overlap can leave the tunnel with the encryptor of one session
      and the decryptor of the other. */
  lemma OverlappingInstallsMix(a: Addr, b: Addr, j: SessionKeys, k: SessionKeys) returns (schedule: seq<Action>)
    ensures Execute(schedule).Some?
    ensures var st := Execute(schedule).value;
            st.encryptor == Some(Cipher(k.encryptKey, 1)) && st.decryptor == Some(Cipher(j.decryptKey, 0)) &&
            |st.handlers| == 2 && st.handlers[0].pc == Serving && st.handlers[1].pc == Serving
  {
    var st: State;
    schedule, st := TwoClients(a, b, j, k);
    schedule, st := Extend(schedule, st, SetKeys(0));
    schedule, st := Extend(schedule, st, SetKeys(1));
    schedule, st := Extend(schedule, st, SetEncryptor(0));
    schedule, st := Extend(schedule, st, SetEncryptor(1));
    schedule, st := Extend(schedule, st, SetDecryptor(1));
    schedule, st := Extend(schedule, st, SetDecryptor(0));
  }

  /** From wherever the others are, a handler whose handshake succeeds can go on to serve:
      its entry is listed, the connection counted, and both ciphers are its own. */
  lemma {:induction false} HandlerServes(schedule: seq<Action>, st: State, h: nat, keys: SessionKeys)
    returns (longer: seq<Action>, after: State)
    requires Execute(schedule) == Some(st) && At(st, h, Handshaking)
    ensures schedule <= longer && Execute(longer) == Some(after) && At(after, h, Serving)
    ensures var addr := st.handlers[h].addr;
            after.clients == st.clients[addr.ip := Entry(keys, addr, h)] && after.connections == st.connections + 1 &&
            after.encryptor == Some(Cipher(keys.encryptKey, h)) && after.decryptor == Some(Cipher(keys.decryptKey, h))
    ensures after.running == st.running
  {
    longer, after := Extend(schedule, st, Handshake(h, Some(keys)));
    longer, after := Extend(longer, after, Store(h));
    longer, after := Extend(longer, after, SetKeys(h));
    longer, after := Extend(longer, after, SetEncryptor(h));
    longer, after := Extend(longer, after, SetDecryptor(h));
  }

  /** While the server runs, a serving handler that wakes goes back to sleep; once the
      server has stopped, it ends and its IP is no longer listed. */
  lemma {:induction false} ServesUntilStopped(schedule: seq<Action>, st: State, h: nat) returns (longer: seq<Action>, after: State)
    requires Execute(schedule) == Some(st) && At(st, h, Serving)
    ensures schedule <= longer && Execute(longer) == Some(after)
    ensures if st.running then after == st && longer == schedule + [Wake(h)]
            else At(after, h, Gone) && after.clients == st.clients - {st.handlers[h].addr.ip}
  {
    longer, after := Extend(schedule, st, Wake(h));
    if !st.running {
      longer, after := Extend(longer, after, Cleanup(h));
    }
  }

  /** A connection can come and the server can be stopped at any time; neither touches a
      handler, the map or the tunnel. */
  lemma {:induction false} ComeAndStop(schedule: seq<Action>, st: State, addr: Addr)
    requires Execute(schedule) == Some(st)
    ensures Execute(schedule + [Stop]) == Some(st.(running := false))
    ensures Execute(schedule + [Accept(addr)]).Some?
    ensures var after := Execute(schedule + [Accept(addr)]).value;
            after == st.(handlers := after.handlers) && |after.handlers| == |st.handlers| + 1 && st.handlers <= after.handlers &&
            At(after, |st.handlers|, Handshaking) && after.handlers[|st.handlers|].addr == addr &&
            after.handlers[|st.handlers|].keys == None
  {
    var _, _ := Extend(schedule, st, Stop);
    var _, _ := Extend(schedule, st, Accept(addr));
  }

  /** A handler whose handshake fails, or that hits an exception, ends without counting and
      takes its IP off the list. */
  lemma {:induction false} FailureEnds(schedule: seq<Action>, st: State, h: nat, crash: bool)
    returns (longer: seq<Action>, after: State)
    requires Execute(schedule) == Some(st) && h < |st.handlers|
    requires if crash then st.handlers[h].pc in {Handshaking, Authenticated, Stored, Serving} else st.handlers[h].pc == Handshaking
    ensures schedule <= longer && Execute(longer) == Some(after) && At(after, h, Gone)
    ensures after.clients == st.clients - {st.handlers[h].addr.ip} && after.connections == st.connections
    ensures after.encryptor == st.encryptor && after.decryptor == st.decryptor
  {
    longer, after := Extend(schedule, st, if crash then Crash(h) else Handshake(h, None));
    longer, after := Extend(longer, after, Cleanup(h));
  }

  function Stores(schedule: seq<Action>): nat {
    if schedule == [] then 0
    else Stores(schedule[..|schedule| - 1]) + if schedule[|schedule| - 1].Store? then 1 else 0
  }

  /** `connections` counts the stores of the schedule. */
  lemma {:induction false} ConnectionsExactly(schedule: seq<Action>)
    requires Execute(schedule).Some?
    ensures Execute(schedule).value.connections == Stores(schedule)
  {
    if schedule != [] {
      var front, a := schedule[..|schedule| - 1], schedule[|schedule| - 1];
      ConnectionsExactly(front);
      assert Apply(Execute(front).value, a).connections == Execute(front).value.connections + if a.Store? then 1 else 0;
    }
  }
}
