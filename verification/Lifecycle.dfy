/** Connecting and disconnecting the tunnel client (client/tunnel.py) over the Wintun
    adapter (client/wintun.py), with a failure possible at every stage. */
module Lifecycle {
  import opened Bytes
  import opened Crypto

  /** The operating-system calls that open or close something, in order. */
  datatype Event =
    | AdapterOpened(h: nat) | AdapterClosed(h: nat)
    | SessionStarted(s: nat, on: nat) | SessionEnded(s: nat)
    | SocketOpened(k: nat) | SocketClosed(k: nat)

  datatype TunnelState = Disconnected | Connecting | Connected | Disconnecting | Error

  /** Which stages of one `connect` raise. */
  datatype Faults = Faults(
    dll: bool, create: bool, open: bool, session: bool, configure: bool, socket: bool, bind: bool, threads: bool)

  /** A TUN interface object and its two handles; 0 is a null handle. */
  datatype Tun = Tun(adapter: nat, session: nat)

  datatype Life = Life(
    state: TunnelState, tun: Option<Tun>, socket: nat,
    encryptor: Option<Key>, decryptor: Option<Key>, server: Option<(string, int)>,
    running: bool, trace: seq<Event>, next: nat)

  const FRESH: Life := Life(Disconnected, None, 0, None, None, None, false, [], 1)

  // ----------------------------------------------------------- what calls do

  function Log(l: Life, e: Event): Life { l.(trace := l.trace + [e]) }

  function OpenAdapter(l: Life): Life
    requires l.tun.Some?
  {
    Log(l, AdapterOpened(l.next)).(tun := Some(l.tun.value.(adapter := l.next)), next := l.next + 1)
  }

  function StartSession(l: Life): Life
    requires l.tun.Some?
  {
    Log(l, SessionStarted(l.next, l.tun.value.adapter)).(tun := Some(l.tun.value.(session := l.next)), next := l.next + 1)
  }

  function OpenSocket(l: Life): Life {
    Log(l, SocketOpened(l.next)).(socket := l.next, next := l.next + 1)
  }

  /** `close_adapter`: the session first. */
  function CloseTun(l: Life): Life {
    if l.tun.None? then l
    else
      var t := l.tun.value;
      var a := if t.session != 0 then Log(l, SessionEnded(t.session)) else l;
      var b := if t.adapter != 0 then Log(a, AdapterClosed(t.adapter)) else a;
      b.(tun := None)
  }

  function CloseSocket(l: Life): Life {
    if l.socket == 0 then l else Log(l, SocketClosed(l.socket)).(socket := 0)
  }

  function Cleanup(l: Life): Life { CloseSocket(CloseTun(l)) }

  function Abandon(l: Life): Life { Cleanup(l.(state := Error)) }

  function WithKeys(l: Life, keys: Option<SessionKeys>): Life {
    if keys.None? then l else l.(encryptor := Some(keys.value.encryptKey), decryptor := Some(keys.value.decryptKey))
  }

  /** Both tunnel ends install their keys as derived, with no second swap: after that,
      what either end encrypts the other decrypts, exactly when their keys differ. */
  lemma DirectionsSurviveInstall(
      client: Life, server: Life, a: ByteString, b: ByteString, salt: ByteString,
      nonce: ByteString, plain: ByteString, output: ByteString)
    requires SealInputs(nonce, plain, output)
    ensures var c := WithKeys(client, Some(DeriveSessionKeys(a, b, salt)));
            var s := WithKeys(server, Some(DeriveSessionKeys(b, a, salt)));
            (a != b <==> Decrypt(s.decryptor.value, Encrypt(c.encryptor.value, nonce, plain, output)) == Some(plain)) &&
            (a != b <==> Decrypt(c.decryptor.value, Encrypt(s.encryptor.value, nonce, plain, output)) == Some(plain))
  {
    DirectionsMirror(a, b, salt, salt);
    var c, s := DeriveSessionKeys(a, b, salt), DeriveSessionKeys(b, a, salt);
    DecryptEncrypt(c.encryptKey, s.decryptKey, nonce, plain, output);
    DecryptEncrypt(s.encryptKey, c.decryptKey, nonce, plain, output);
  }

  /** The TUN stages: constructor, adapter (created, or opened by name), session,
      address. The result is where they stop and whether they succeeded. */
  function BringUp(l: Life, f: Faults): (Life, bool) {
    if f.dll then (l, false)
    else
      var a := l.(tun := Some(Tun(0, 0)));
      if f.create && f.open then (a, false)
      else
        var b := OpenAdapter(a);
        if f.session then (b, false)
        else (StartSession(b), !f.configure)
  }

  /** The socket stages, the server address, the flag and the worker threads. */
  function BringUpUdp(l: Life, host: string, port: int, f: Faults): (Life, bool) {
    if f.socket then (l, false)
    else if f.bind then (OpenSocket(l), false)
    else (OpenSocket(l).(server := Some((host, port)), running := true), !f.threads)
  }

  function BothUp(l: Life, host: string, port: int, f: Faults): (Life, bool) {
    var (up, ok) := BringUp(l, f);
    if ok then BringUpUdp(up, host, port, f) else (up, false)
  }

  /** The body of `connect`'s `try`. */
  function Attempt(l: Life, host: string, port: int, keys: Option<SessionKeys>, f: Faults): (Life, bool) {
    var a := WithKeys(l, keys);
    if a.encryptor.None? || a.decryptor.None? then (a, false) else BothUp(a, host, port, f)
  }

  function Connect(l: Life, host: string, port: int, keys: Option<SessionKeys>, f: Faults): (Life, bool) {
    if l.state.Connected? then (l, true)
    else
      var (a, ok) := Attempt(l.(state := Connecting), host, port, keys, f);
      if ok then (a.(state := Connected), true) else (Abandon(a), false)
  }

  function Disconnect(l: Life): Life {
    if l.state.Disconnected? then l else Cleanup(l.(running := false)).(state := Disconnected)
  }

  // ------------------------------------------------------------- the classes

  class Os {
    var trace: seq<Event>
    var next: nat

    constructor ()
      ensures trace == [] && next == 1
    {
      trace, next := [], 1;
    }

    method Fresh(e: Event) returns (h: nat)
      modifies this
      ensures h == old(next) && next == old(next) + 1 && trace == old(trace) + [e]
    {
      h := next;
      trace := trace + [e];
      next := next + 1;
    }

    method Record(e: Event)
      modifies this`trace
      ensures trace == old(trace) + [e]
    {
      trace := trace + [e];
    }
  }

  class WintunAdapter {
    const os: Os
    var adapter: nat
    var session: nat

    constructor (os: Os)
      ensures this.os == os && adapter == 0 && session == 0
    {
      this.os, adapter, session := os, 0, 0;
    }

    /** `create_adapter`; false is its RuntimeError. */
    method CreateAdapter(createFails: bool, openFails: bool) returns (ok: bool)
      requires os.next > 0
      modifies this`adapter, os
      ensures old(adapter) != 0 ==>
                ok && adapter == old(adapter) && os.trace == old(os.trace) && os.next == old(os.next)
      ensures old(adapter) == 0 && createFails && openFails ==>
                !ok && adapter == 0 && os.trace == old(os.trace) && os.next == old(os.next)
      ensures old(adapter) == 0 && !(createFails && openFails) ==>
                ok && adapter == old(os.next) && os.next == old(os.next) + 1 &&
                os.trace == old(os.trace) + [AdapterOpened(adapter)]
    {
      if adapter != 0 {
        return true;
      }
      if !createFails {
        adapter := os.Fresh(AdapterOpened(os.next));
      }
      if adapter == 0 {
        if openFails {
          return false;
        }
        adapter := os.Fresh(AdapterOpened(os.next));
      }
      return true;
    }

    method StartSession(fails: bool) returns (ok: bool)
      requires os.next > 0
      modifies this`session, os
      ensures adapter == 0 ==> !ok && session == old(session) && os.trace == old(os.trace) && os.next == old(os.next)
      ensures adapter != 0 && old(session) != 0 ==>
                ok && session == old(session) && os.trace == old(os.trace) && os.next == old(os.next)
      ensures adapter != 0 && old(session) == 0 && fails ==>
                !ok && session == 0 && os.trace == old(os.trace) && os.next == old(os.next)
      ensures adapter != 0 && old(session) == 0 && !fails ==>
                ok && session == old(os.next) && os.next == old(os.next) + 1 &&
                os.trace == old(os.trace) + [SessionStarted(session, adapter)]
    {
      if adapter == 0 {
        return false;
      }
      if session != 0 {
        return true;
      }
      if !fails {
        session := os.Fresh(SessionStarted(os.next, adapter));
      }
      return session != 0;
    }

    method StopSession()
      modifies this`session, os`trace
      ensures session == 0
      ensures os.trace == old(os.trace) + if old(session) != 0 then [SessionEnded(old(session))] else []
    {
      if session != 0 {
        os.Record(SessionEnded(session));
        session := 0;
      }
    }

    method CloseAdapter()
      modifies this`session, this`adapter, os`trace
      ensures session == 0 && adapter == 0
      ensures os.trace == old(os.trace) + (if old(session) != 0 then [SessionEnded(old(session))] else [])
                                        + (if old(adapter) != 0 then [AdapterClosed(old(adapter))] else [])
    {
      StopSession();
      if adapter != 0 {
        os.Record(AdapterClosed(adapter));
        adapter := 0;
      }
    }
  }

  class TunnelClient {
    const os: Os
    var tun: WintunAdapter?
    var socket: nat
    var state: TunnelState
    var encryptor: Option<Key>
    var decryptor: Option<Key>
    var server: Option<(string, int)>
    var running: bool

    ghost predicate Valid()
      reads this, os, tun
    {
      os.next > 0 && (tun != null ==> tun.os == os)
    }

    ghost function Abs(): Life
      reads this, os, tun
    {
      Life(state, if tun == null then None else Some(Tun(tun.adapter, tun.session)), socket,
           encryptor, decryptor, server, running, os.trace, os.next)
    }

    constructor (os: Os)
      requires os.trace == [] && os.next == 1
      ensures this.os == os && Valid() && Abs() == FRESH
    {
      this.os, tun, socket, state := os, null, 0, Disconnected;
      encryptor, decryptor, server, running := None, None, None, false;
    }

    /** `set_session_keys`: no swap of directions. */
    method SetSessionKeys(keys: SessionKeys)
      requires Valid()
      modifies this`encryptor, this`decryptor
      ensures Valid() && Abs() == WithKeys(old(Abs()), Some(keys))
    {
      encryptor := Some(keys.encryptKey);
      decryptor := Some(keys.decryptKey);
    }

    method CleanUp()
      requires Valid()
      modifies this`tun, this`socket, os`trace, tun
      ensures Valid() && Abs() == Cleanup(old(Abs()))
    {
      if tun != null {
        tun.CloseAdapter();
        tun := null;
      }
      if socket != 0 {
        os.Record(SocketClosed(socket));
        socket := 0;
      }
    }

    method BringUpTun(f: Faults) returns (ok: bool)
      requires Valid()
      modifies this`tun, os
      ensures Valid() && (tun == old(tun) || fresh(tun))
      ensures (Abs(), ok) == BringUp(old(Abs()), f)
    {
      if f.dll {
        return false;
      }
      var made := new WintunAdapter(os);
      tun := made;
      ok := made.CreateAdapter(f.create, f.open);
      if !ok {
        return;
      }
      ok := made.StartSession(f.session);
      if !ok {
        return;
      }
      return !f.configure;
    }

    method BringUpSocket(host: string, port: int, f: Faults) returns (ok: bool)
      requires Valid()
      modifies this`socket, this`server, this`running, os
      ensures Valid() && (Abs(), ok) == BringUpUdp(old(Abs()), host, port, f)
    {
      if f.socket {
        return false;
      }
      socket := os.Fresh(SocketOpened(os.next));
      if f.bind {
        return false;
      }
      server := Some((host, port));
      running := true;
      return !f.threads;
    }

    /** The stages after the cipher check. */
    method BringUpAll(host: string, port: int, f: Faults) returns (ok: bool)
      requires Valid()
      modifies this`tun, this`socket, this`server, this`running, os
      ensures Valid() && (tun == old(tun) || fresh(tun))
      ensures (Abs(), ok) == BothUp(old(Abs()), host, port, f)
    {
      ok := BringUpTun(f);
      assert (Abs(), ok) == BringUp(old(Abs()), f);
      if ok {
        ok := BringUpSocket(host, port, f);
      }
    }

    method TryConnect(host: string, port: int, keys: Option<SessionKeys>, f: Faults) returns (ok: bool)
      requires Valid()
      modifies this, os
      ensures Valid() && (tun == old(tun) || fresh(tun))
      ensures (Abs(), ok) == Attempt(old(Abs()), host, port, keys, f)
    {
      if keys.Some? {
        SetSessionKeys(keys.value);
      }
      assert Abs() == WithKeys(old(Abs()), keys);
      if encryptor.None? || decryptor.None? {
        return false;
      }
      ok := BringUpAll(host, port, f);
    }

    /** The end of `connect`: the new state, and the clean-up of a failed attempt. */
    method Settle(ok: bool)
      requires Valid()
      modifies this`state, this`tun, this`socket, os`trace, tun
      ensures Valid() && Abs() == if ok then old(Abs()).(state := Connected) else Abandon(old(Abs()))
    {
      state := if ok then Connected else Error;
      if !ok {
        assert Abs() == old(Abs()).(state := Error);
        CleanUp();
      }
    }

    /** `connect`, from taking the lock to releasing it. */
    method ConnectTo(host: string, port: int, keys: Option<SessionKeys>, f: Faults) returns (ok: bool)
      requires Valid()
      modifies this, os, tun
      ensures Valid()
      ensures (Abs(), ok) == Connect(old(Abs()), host, port, keys, f)
    {
      if state == Connected {
        return true;
      }
      ghost var start := Abs();
      state := Connecting;
      assert Abs() == start.(state := Connecting);
      ok := TryConnect(host, port, keys, f);
      assert (Abs(), ok) == Attempt(start.(state := Connecting), host, port, keys, f);
      Settle(ok);
    }

    /** `disconnect`, once the workers have stopped. */
    method DisconnectNow()
      requires Valid()
      modifies this, os`trace, tun
      ensures Valid() && Abs() == Disconnect(old(Abs()))
    {
      if state == Disconnected {
        return;
      }
      state := Disconnecting;
      running := false;
      CleanUp();
      state := Disconnected;
    }
  }
}
