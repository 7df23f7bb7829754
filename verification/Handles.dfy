/** Over every sequence of connects and disconnects: the states in which the lock is
    released, and the balance of adapters, sessions and sockets. */
module Handles {
  import opened Bytes
  import opened Crypto
  import opened Lifecycle

  /** What is open after a trace; `used` holds every handle ever handed out. */
  datatype Open = Open(adapters: set<nat>, sessions: map<nat, nat>, sockets: set<nat>, used: set<nat>)

  /** Replays one call. None: a handle closed that is not open, a session started on a
      closed adapter, or an adapter closed under its session. */
  function Replay1(o: Open, e: Event): Option<Open> {
    match e
    case AdapterOpened(h) =>
      if h in o.used then None else Some(o.(adapters := o.adapters + {h}, used := o.used + {h}))
    case AdapterClosed(h) =>
      if h !in o.adapters || h in o.sessions.Values then None else Some(o.(adapters := o.adapters - {h}))
    case SessionStarted(s, a) =>
      if s in o.used || a !in o.adapters then None else Some(o.(sessions := o.sessions[s := a], used := o.used + {s}))
    case SessionEnded(s) =>
      if s !in o.sessions then None else Some(o.(sessions := o.sessions - {s}))
    case SocketOpened(k) =>
      if k in o.used then None else Some(o.(sockets := o.sockets + {k}, used := o.used + {k}))
    case SocketClosed(k) =>
      if k !in o.sockets then None else Some(o.(sockets := o.sockets - {k}))
  }

  const NOTHING: Open := Open({}, map[], {}, {})

  function Replay(trace: seq<Event>): Option<Open> {
    if trace == [] then Some(NOTHING)
    else
      match Replay(trace[..|trace| - 1])
      case None => None
      case Some(o) => Replay1(o, trace[|trace| - 1])
  }

  lemma ReplayMore(trace: seq<Event>, e: Event)
    ensures Replay(trace + [e]) == match Replay(trace) case None => None case Some(o) => Replay1(o, e)
  {
    assert (trace + [e])[..|trace|] == trace;
  }

  /** The handles a client holds. */
  function Held(l: Life, used: set<nat>): Open {
    var a := if l.tun.Some? then l.tun.value.adapter else 0;
    var s := if l.tun.Some? then l.tun.value.session else 0;
    Open(if a != 0 then {a} else {}, if s != 0 then map[s := a] else map[],
         if l.socket != 0 then {l.socket} else {}, used)
  }

  /** Every call so far was proper, and what is open is exactly what the client holds. */
  predicate Balanced(l: Life) {
    && l.next > 0
    && Replay(l.trace).Some?
    && (forall h :: h in Replay(l.trace).value.used ==> 0 < h < l.next)
    && Replay(l.trace).value == Held(l, Replay(l.trace).value.used)
    && (l.tun.Some? && l.tun.value.session != 0 ==> l.tun.value.adapter != 0)
  }

  /** What holds whenever the lock is released. */
  predicate Rest(l: Life) {
    && (l.state.Disconnected? || l.state.Connected? || l.state.Error?)
    && (l.state.Connected? ==>
          l.tun.Some? && l.tun.value.adapter != 0 && l.tun.value.session != 0 && l.socket != 0 &&
          l.encryptor.Some? && l.decryptor.Some? && l.server.Some? && l.running)
    && (!l.state.Connected? ==> l.tun.None? && l.socket == 0)
    && (l.state.Disconnected? ==> !l.running)
  }

  lemma OpenAdapterBalanced(l: Life)
    requires Balanced(l) && l.tun == Some(Tun(0, 0))
    ensures Balanced(OpenAdapter(l))
  {
    ReplayMore(l.trace, AdapterOpened(l.next));
  }

  lemma StartSessionBalanced(l: Life)
    requires Balanced(l) && l.tun.Some? && l.tun.value.adapter != 0 && l.tun.value.session == 0
    ensures Balanced(StartSession(l))
  {
    ReplayMore(l.trace, SessionStarted(l.next, l.tun.value.adapter));
  }

  lemma OpenSocketBalanced(l: Life)
    requires Balanced(l) && l.socket == 0
    ensures Balanced(OpenSocket(l))
  {
    ReplayMore(l.trace, SocketOpened(l.next));
  }

  lemma EndSessionBalanced(l: Life)
    requires Balanced(l) && l.tun.Some? && l.tun.value.session != 0
    ensures Balanced(Log(l, SessionEnded(l.tun.value.session)).(tun := Some(l.tun.value.(session := 0))))
  {
    ReplayMore(l.trace, SessionEnded(l.tun.value.session));
    var o := Replay(l.trace).value;
    assert o.sessions - {l.tun.value.session} == map[];
  }

  lemma CloseAdapterBalanced(l: Life)
    requires Balanced(l) && l.tun.Some? && l.tun.value.session == 0 && l.tun.value.adapter != 0
    ensures Balanced(Log(l, AdapterClosed(l.tun.value.adapter)).(tun := None))
  {
    ReplayMore(l.trace, AdapterClosed(l.tun.value.adapter));
    assert Replay(l.trace).value.adapters - {l.tun.value.adapter} == {};
  }

  lemma CloseTunBalanced(l: Life)
    requires Balanced(l)
    ensures Balanced(CloseTun(l))
  {
    if l.tun.Some? {
      var t := l.tun.value;
      var a := l;
      if t.session != 0 {
        EndSessionBalanced(l);
        a := Log(l, SessionEnded(t.session)).(tun := Some(t.(session := 0)));
      }
      if t.adapter != 0 {
        CloseAdapterBalanced(a);
      }
    }
  }

  lemma CleanupBalanced(l: Life)
    requires Balanced(l)
    ensures Balanced(Cleanup(l))
  {
    CloseTunBalanced(l);
    var a := CloseTun(l);
    if a.socket != 0 {
      ReplayMore(a.trace, SocketClosed(a.socket));
      assert Replay(a.trace).value.sockets - {a.socket} == {};
    }
  }

  lemma BringUpBalanced(l: Life, f: Faults)
    requires Balanced(l) && l.tun.None?
    ensures var (a, ok) := BringUp(l, f);
            Balanced(a) && a.socket == l.socket && a.state == l.state && a.running == l.running &&
            a.encryptor == l.encryptor && a.decryptor == l.decryptor &&
            (ok ==> a.tun.Some? && a.tun.value.adapter != 0 && a.tun.value.session != 0)
  {
    if !f.dll {
      var a := l.(tun := Some(Tun(0, 0)));
      assert Balanced(a);
      if !(f.create && f.open) {
        OpenAdapterBalanced(a);
        if !f.session {
          StartSessionBalanced(OpenAdapter(a));
        }
      }
    }
  }

  lemma SameHandles(l: Life, m: Life)
    requires Balanced(l) && m.tun == l.tun && m.socket == l.socket && m.trace == l.trace && m.next == l.next
    ensures Balanced(m)
  {
  }

  lemma BringUpUdpBalanced(l: Life, host: string, port: int, f: Faults)
    requires Balanced(l) && l.socket == 0
    ensures var (a, ok) := BringUpUdp(l, host, port, f);
            Balanced(a) && a.tun == l.tun && a.encryptor == l.encryptor && a.decryptor == l.decryptor &&
            (ok ==> a.socket != 0 && a.server.Some? && a.running)
  {
    OpenSocketBalanced(l);
    SameHandles(OpenSocket(l), OpenSocket(l).(server := Some((host, port)), running := true));
  }

  lemma BothUpBalanced(l: Life, host: string, port: int, f: Faults)
    requires Balanced(l) && l.tun.None? && l.socket == 0 && l.encryptor.Some? && l.decryptor.Some?
    ensures Balanced(BothUp(l, host, port, f).0)
    ensures BothUp(l, host, port, f).1 ==> Rest(BothUp(l, host, port, f).0.(state := Connected))
  {
    BringUpBalanced(l, f);
    var (b, up) := BringUp(l, f);
    if up {
      BringUpUdpBalanced(b, host, port, f);
    }
  }

  lemma AttemptBalanced(l: Life, host: string, port: int, keys: Option<SessionKeys>, f: Faults)
    requires Balanced(l) && l.tun.None? && l.socket == 0
    ensures Balanced(Attempt(l, host, port, keys, f).0)
    ensures Attempt(l, host, port, keys, f).1 ==> Rest(Attempt(l, host, port, keys, f).0.(state := Connected))
  {
    var a := WithKeys(l, keys);
    SameHandles(l, a);
    if a.encryptor.Some? && a.decryptor.Some? {
      BothUpBalanced(a, host, port, f);
    } else {
      assert Attempt(l, host, port, keys, f) == (a, false);
    }
  }

  datatype Op = OpConnect(host: string, port: int, keys: Option<SessionKeys>, f: Faults) | OpDisconnect

  function Step(l: Life, op: Op): Life {
    match op
    case OpConnect(host, port, keys, f) => Connect(l, host, port, keys, f).0
    case OpDisconnect => Disconnect(l)
  }

  function Run(ops: seq<Op>): Life {
    if ops == [] then FRESH else Step(Run(ops[..|ops| - 1]), ops[|ops| - 1])
  }

  lemma StepKeeps(l: Life, op: Op)
    requires Balanced(l) && Rest(l)
    ensures Balanced(Step(l, op)) && Rest(Step(l, op))
  {
    match op {
      case OpConnect(host, port, keys, f) =>
        if !l.state.Connected? {
          var start := l.(state := Connecting);
          assert Balanced(start);
          AttemptBalanced(start, host, port, keys, f);
          var (a, ok) := Attempt(start, host, port, keys, f);
          CleanupBalanced(a.(state := Error));
        }
      case OpDisconnect =>
        CleanupBalanced(l.(running := false));
    }
  }

  /** Whatever fails, whenever the lock is free the client is disconnected, connected
      with everything in place, or in error; and exactly the handles it holds are open. */
  lemma {:induction false} AlwaysAtRest(ops: seq<Op>)
    ensures Balanced(Run(ops)) && Rest(Run(ops))
  {
    if ops != [] {
      AlwaysAtRest(ops[..|ops| - 1]);
      StepKeeps(Run(ops[..|ops| - 1]), ops[|ops| - 1]);
    }
  }

  predicate Opens(e: Event, h: nat) {
    e == AdapterOpened(h) || (e.SessionStarted? && e.s == h) || e == SocketOpened(h)
  }

  predicate Closes(e: Event, h: nat) {
    e == AdapterClosed(h) || e == SessionEnded(h) || e == SocketClosed(h)
  }

  function Opened(trace: seq<Event>, h: nat): nat {
    if trace == [] then 0 else Opened(trace[..|trace| - 1], h) + if Opens(trace[|trace| - 1], h) then 1 else 0
  }

  function Closed(trace: seq<Event>, h: nat): nat {
    if trace == [] then 0 else Closed(trace[..|trace| - 1], h) + if Closes(trace[|trace| - 1], h) then 1 else 0
  }

  predicate IsOpen(o: Open, h: nat) { h in o.adapters || h in o.sessions || h in o.sockets }

  /** No handle has two roles, and whatever is open was handed out. */
  predicate Apart(o: Open) {
    o.adapters !! o.sockets && o.adapters !! o.sessions.Keys && o.sockets !! o.sessions.Keys &&
    o.adapters + o.sockets + o.sessions.Keys <= o.used
  }

  lemma {:induction false} ProperApart(trace: seq<Event>)
    requires Replay(trace).Some?
    ensures Apart(Replay(trace).value)
  {
    if trace != [] {
      ProperApart(trace[..|trace| - 1]);
    }
  }

  /** A proper trace opens every handle at most once, and has closed it exactly when it
      is no longer open. */
  lemma {:induction false} ProperCounts(trace: seq<Event>, h: nat)
    requires Replay(trace).Some?
    ensures var o := Replay(trace).value;
            Opened(trace, h) == Closed(trace, h) + (if IsOpen(o, h) then 1 else 0) &&
            Opened(trace, h) == if h in o.used then 1 else 0
  {
    if trace != [] {
      var before := trace[..|trace| - 1];
      ProperCounts(before, h);
      ProperApart(before);
      ProperApart(trace);
    }
  }

  /** Outside a connection, everything ever opened has been closed exactly once. */
  lemma EverythingClosedOnce(ops: seq<Op>, h: nat)
    ensures !Run(ops).state.Connected? ==> Opened(Run(ops).trace, h) == Closed(Run(ops).trace, h) <= 1
    ensures Closed(Run(ops).trace, h) <= Opened(Run(ops).trace, h) <= 1
  {
    AlwaysAtRest(ops);
    ProperCounts(Run(ops).trace, h);
  }

  lemma {:induction false} ReplayPrefix(trace: seq<Event>, n: nat)
    requires n <= |trace| && Replay(trace).Some?
    ensures Replay(trace[..n]).Some?
    decreases |trace|
  {
    if n < |trace| {
      ReplayPrefix(trace[..|trace| - 1], n);
      assert trace[..|trace| - 1][..n] == trace[..n];
    } else {
      assert trace[..n] == trace;
    }
  }

  lemma {:induction false} SessionStays(trace: seq<Event>, i: nat, n: nat)
    requires Replay(trace).Some? && i < n <= |trace| && trace[i].SessionStarted?
    requires forall j :: i < j < n ==> trace[j] != SessionEnded(trace[i].s)
    ensures Replay(trace[..n]).Some?
    ensures var o := Replay(trace[..n]).value; trace[i].s in o.sessions && o.sessions[trace[i].s] == trace[i].on
  {
    ReplayPrefix(trace, n);
    assert trace[..n][..n - 1] == trace[..n - 1];
    if n - 1 > i {
      SessionStays(trace, i, n - 1);
      ReplayPrefix(trace, n - 1);
      ProperUsed(trace[..n - 1], trace[i].s);
    }
  }

  lemma ProperUsed(trace: seq<Event>, s: nat)
    requires Replay(trace).Some? && s in Replay(trace).value.sessions
    ensures s in Replay(trace).value.used
  {
    ProperApart(trace);
  }

  /** An adapter cannot be closed while a session on it is open. */
  lemma ClosedWithoutSession(trace: seq<Event>, k: nat, s: nat, on: nat)
    requires Replay(trace).Some? && k < |trace| && trace[k] == AdapterClosed(on)
    requires Replay(trace[..k]).Some? && s in Replay(trace[..k]).value.sessions
    ensures Replay(trace[..k]).value.sessions[s] != on
  {
    ReplayPrefix(trace, k + 1);
    assert trace[..k + 1][..k] == trace[..k];
  }

  /** On every run, an adapter is closed only after the sessions started on it. */
  lemma SessionsEndFirst(ops: seq<Op>, i: nat, k: nat)
    requires var trace := Run(ops).trace;
             i < k < |trace| && trace[i].SessionStarted? && trace[k] == AdapterClosed(trace[i].on)
    ensures var trace := Run(ops).trace; exists j :: i < j < k && trace[j] == SessionEnded(trace[i].s)
  {
    var trace := Run(ops).trace;
    AlwaysAtRest(ops);
    if forall j :: i < j < k ==> trace[j] != SessionEnded(trace[i].s) {
      SessionStays(trace, i, k);
      ClosedWithoutSession(trace, k, trace[i].s, trace[i].on);
    }
  }

  predicate ThreadStartRaises(op: Op) { op.OpConnect? && op.f.threads }

  /** While no thread start raises, the workers' flag is up exactly while connected. */
  lemma {:induction false} RunningMeansConnected(ops: seq<Op>)
    requires forall i :: 0 <= i < |ops| ==> !ThreadStartRaises(ops[i])
    ensures Run(ops).running <==> Run(ops).state.Connected?
  {
    if ops != [] {
      var before := ops[..|ops| - 1];
      RunningMeansConnected(before);
      AlwaysAtRest(before);
      AlwaysAtRest(ops);
    }
  }

  /** A failed connect leaves the workers' flag up exactly when it was up before or the
      failure was the start of a thread. */
  lemma FailedConnectFlag(l: Life, host: string, port: int, keys: Option<SessionKeys>, f: Faults)
    requires !Connect(l, host, port, keys, f).1
    ensures var after := Connect(l, host, port, keys, f).0;
            after.running <==>
              l.running || (WithKeys(l, keys).encryptor.Some? && WithKeys(l, keys).decryptor.Some? &&
                            f == Faults(false, f.create, f.open, false, false, false, false, true) && !(f.create && f.open))
  {
  }

  /** The failures that end a connect. */
  predicate Fails(f: Faults) {
    f.dll || (f.create && f.open) || f.session || f.configure || f.socket || f.bind || f.threads
  }

  lemma BothUpExactly(l: Life, host: string, port: int, f: Faults)
    ensures var (after, ok) := BothUp(l, host, port, f);
            var n := l.next;
            (ok <==> !Fails(f)) &&
            (ok ==> after == l.(tun := Some(Tun(n, n + 1)), socket := n + 2, server := Some((host, port)), running := true,
                                trace := l.trace + [AdapterOpened(n), SessionStarted(n + 1, n), SocketOpened(n + 2)],
                                next := n + 3))
  {
    var n := l.next;
    assert l.trace + [AdapterOpened(n)] + [SessionStarted(n + 1, n)] + [SocketOpened(n + 2)] ==
           l.trace + [AdapterOpened(n), SessionStarted(n + 1, n), SocketOpened(n + 2)];
  }

  /** A connect of a client that is not connected succeeds exactly if it has both keys and
      nothing fails; then it has opened an adapter, a session on it and a socket, holds
      them, uses the keys and the address it was given, and runs. */
  lemma ConnectExactly(l: Life, host: string, port: int, keys: Option<SessionKeys>, f: Faults)
    requires l.state != Connected
    ensures var (after, ok) := Connect(l, host, port, keys, f);
            var n := l.next;
            (ok <==> (keys.Some? || (l.encryptor.Some? && l.decryptor.Some?)) && !Fails(f)) &&
            (ok ==> after == Life(
              Connected, Some(Tun(n, n + 1)), n + 2,
              if keys.Some? then Some(keys.value.encryptKey) else l.encryptor,
              if keys.Some? then Some(keys.value.decryptKey) else l.decryptor,
              Some((host, port)), true,
              l.trace + [AdapterOpened(n), SessionStarted(n + 1, n), SocketOpened(n + 2)], n + 3)) &&
            (!ok ==> after.state == Error && after.tun == None && after.socket == 0)
  {
    BothUpExactly(WithKeys(l.(state := Connecting), keys), host, port, f);
  }

  /** What a clean-up closes, in order. */
  lemma CleanupTrace(l: Life)
    ensures Cleanup(l).trace == l.trace +
              (if l.tun.Some? && l.tun.value.session != 0 then [SessionEnded(l.tun.value.session)] else []) +
              (if l.tun.Some? && l.tun.value.adapter != 0 then [AdapterClosed(l.tun.value.adapter)] else []) +
              (if l.socket != 0 then [SocketClosed(l.socket)] else [])
  {
  }

  /** What a failed attempt leaves open. */
  lemma FailedUp(l: Life, host: string, port: int, f: Faults)
    requires l.tun == None && l.socket == 0 && l.next > 0 && Fails(f)
    ensures var (after, n) := (BothUp(l, host, port, f).0, l.next);
            var (events, tun, socket) :=
              if f.dll then ([], None, 0)
              else if f.create && f.open then ([], Some(Tun(0, 0)), 0)
              else if f.session then ([AdapterOpened(n)], Some(Tun(n, 0)), 0)
              else if f.configure || f.socket then ([AdapterOpened(n), SessionStarted(n + 1, n)], Some(Tun(n, n + 1)), 0)
              else ([AdapterOpened(n), SessionStarted(n + 1, n), SocketOpened(n + 2)], Some(Tun(n, n + 1)), n + 2);
            after.trace == l.trace + events && after.tun == tun && after.socket == socket
  {
  }

  /** What a failed connect had opened when it failed, and then closed again. */
  lemma FailedConnectTrace(l: Life, host: string, port: int, keys: Option<SessionKeys>, f: Faults)
    requires l.state != Connected && l.tun == None && l.socket == 0 && l.next > 0
    requires keys.Some? && Fails(f)
    ensures var after, n := Connect(l, host, port, keys, f).0, l.next;
            after.trace == l.trace +
              if f.dll || (f.create && f.open) then []
              else if f.session then [AdapterOpened(n), AdapterClosed(n)]
              else if f.configure || f.socket
              then [AdapterOpened(n), SessionStarted(n + 1, n), SessionEnded(n + 1), AdapterClosed(n)]
              else [AdapterOpened(n), SessionStarted(n + 1, n), SocketOpened(n + 2),
                    SessionEnded(n + 1), AdapterClosed(n), SocketClosed(n + 2)]
  {
    var start := WithKeys(l.(state := Connecting), keys);
    BothUpExactly(start, host, port, f);
    FailedUp(start, host, port, f);
    CleanupTrace(BothUp(start, host, port, f).0.(state := Error));
  }

  /** Connecting twice changes nothing. */
  lemma ConnectTwice(l: Life, host: string, port: int, keys: Option<SessionKeys>, f: Faults)
    requires l.state == Connected
    ensures Connect(l, host, port, keys, f) == (l, true)
  {
  }

  /** A disconnect closes whatever is open, session before adapter before socket, stops the
      workers, and is idempotent. */
  lemma DisconnectExactly(l: Life)
    requires l.state != Disconnected
    ensures var after := Disconnect(l);
            after.state == Disconnected && after.tun == None && after.socket == 0 && !after.running &&
            Disconnect(after) == after &&
            after.trace == l.trace +
              (if l.tun.Some? && l.tun.value.session != 0 then [SessionEnded(l.tun.value.session)] else []) +
              (if l.tun.Some? && l.tun.value.adapter != 0 then [AdapterClosed(l.tun.value.adapter)] else []) +
              (if l.socket != 0 then [SocketClosed(l.socket)] else [])
    ensures var after := Disconnect(l);
            after.encryptor == l.encryptor && after.decryptor == l.decryptor && after.server == l.server && after.next == l.next
  {
  }
}
