/** The iptables command lists of server/nat.py: what they do to the rule chains, what
    the kill switch then does to packets, and what taking it down leaves behind. */
module Firewall {
  import opened Bytes

  datatype Protocol = Udp | Tcp | OtherProtocol

  /** The rules the repository writes, and any rule written by somebody else. */
  datatype Rule =
    | MarkUdp(dport: int)
    | AcceptTo(host: string)
    | DropUnmarked
    | AcceptDns(protocol: Protocol)
    | Masquerade(subnet: string, out: string)
    | ForwardOut(tun: string, main: string)
    | ForwardBack(main: string, tun: string)
    | Foreign(text: string)

  type Chain = seq<Rule>

  /** mangle OUTPUT, filter OUTPUT, nat POSTROUTING and filter FORWARD. */
  datatype Chains = Chains(mangle: Chain, output: Chain, postrouting: Chain, forward: Chain)
  datatype Place = Mangle | Output | Postrouting | Forward

  function Get(cs: Chains, at: Place): Chain {
    match at case Mangle => cs.mangle case Output => cs.output case Postrouting => cs.postrouting case Forward => cs.forward
  }

  function Put(cs: Chains, at: Place, c: Chain): Chains {
    match at
    case Mangle => cs.(mangle := c)
    case Output => cs.(output := c)
    case Postrouting => cs.(postrouting := c)
    case Forward => cs.(forward := c)
  }

  /** `iptables -D`: the first rule equal to `r` goes. */
  function DeleteFirst(c: Chain, r: Rule): Chain {
    if c == [] then [] else if c[0] == r then c[1..] else [c[0]] + DeleteFirst(c[1..], r)
  }

  /** `AddRule` is -A, `DeleteRule` is -D, `EnableForwarding` the sysctl; `quiet` is `|| true`. */
  datatype Command = AddRule(at: Place, r: Rule) | DeleteRule(at: Place, r: Rule, quiet: bool) | EnableForwarding

  /** One command and its exit status; `fails` is a failure for a reason outside the
      chains, such as missing privileges. */
  function Run(cs: Chains, c: Command, fails: bool): (Chains, bool) {
    match c
    case AddRule(at, r) => if fails then (cs, false) else (Put(cs, at, Get(cs, at) + [r]), true)
    case DeleteRule(at, r, quiet) =>
      if fails || r !in Get(cs, at) then (cs, quiet) else (Put(cs, at, DeleteFirst(Get(cs, at), r)), true)
    case EnableForwarding => (cs, !fails)
  }

  /** Every command is run, whatever the earlier ones did; all must succeed. */
  function RunAll(cs: Chains, commands: seq<Command>, fails: int -> bool): (Chains, bool) {
    if commands == [] then (cs, true)
    else
      var n := |commands| - 1;
      var (before, ok) := RunAll(cs, commands[..n], fails);
      var (after, done) := Run(before, commands[n], fails(n));
      (after, ok && done)
  }

  /** A command that fails, or deletes what is not there, leaves the chains alone; only
      `|| true` hides it. One that does not fail appends behind every rule, or takes out
      the first equal rule and no other. */
  lemma RunExactly(cs: Chains, at: Place, r: Rule, quiet: bool, fails: bool)
    ensures Run(cs, AddRule(at, r), fails) == if fails then (cs, false) else (Put(cs, at, Get(cs, at) + [r]), true)
    ensures var (after, ok) := Run(cs, DeleteRule(at, r, quiet), fails);
            if fails || r !in Get(cs, at) then after == cs && ok == quiet
            else ok && exists k :: 0 <= k < |Get(cs, at)| && Get(cs, at)[k] == r && r !in Get(cs, at)[..k] &&
                              after == Put(cs, at, Get(cs, at)[..k] + Get(cs, at)[k + 1..])
    ensures Run(cs, EnableForwarding, fails) == (cs, !fails)
    ensures forall other :: other != at ==> Get(Run(cs, DeleteRule(at, r, quiet), fails).0, other) == Get(cs, other)
  {
    if r in Get(cs, at) {
      var k := DeletedAt(Get(cs, at), r);
    }
  }

  lemma {:induction false} DeletedAt(c: Chain, r: Rule) returns (k: nat)
    requires r in c
    ensures k < |c| && c[k] == r && r !in c[..k] && DeleteFirst(c, r) == c[..k] + c[k + 1..]
  {
    if c[0] == r {
      k := 0;
      assert c[..0] == [] && [] + c[1..] == c[1..];
    } else {
      var j := DeletedAt(c[1..], r);
      k := j + 1;
      assert c[..k] == [c[0]] + c[1..][..j] && c[k + 1..] == c[1..][j + 1..];
    }
  }

  function SwitchOn(port: int, host: Option<string>): seq<Command> {
    [AddRule(Mangle, MarkUdp(port))]
    + (if host.Some? && host.value != "" then [AddRule(Output, AcceptTo(host.value))] else [])
    + [AddRule(Output, DropUnmarked), AddRule(Output, AcceptDns(Udp)), AddRule(Output, AcceptDns(Tcp))]
  }

  function SwitchOff(port: int): seq<Command> {
    [DeleteRule(Mangle, MarkUdp(port), false), DeleteRule(Output, DropUnmarked, false),
     DeleteRule(Output, AcceptDns(Udp), false), DeleteRule(Output, AcceptDns(Tcp), false)]
  }

  function NatOn(tun: string, subnet: string, main: string): seq<Command> {
    [EnableForwarding, DeleteRule(Postrouting, Masquerade(subnet, main), true), AddRule(Postrouting, Masquerade(subnet, main)),
     AddRule(Forward, ForwardOut(tun, main)), AddRule(Forward, ForwardBack(main, tun))]
  }

  function NatOff(tun: string, subnet: string, main: string): seq<Command> {
    [DeleteRule(Postrouting, Masquerade(subnet, main), false),
     DeleteRule(Forward, ForwardOut(tun, main), false), DeleteRule(Forward, ForwardBack(main, tun), false)]
  }

  // ------------------------------------------------------------------- classes

  class Iptables {
    var chains: Chains

    constructor (chains: Chains)
      ensures this.chains == chains
    {
      this.chains := chains;
    }

    method Execute(c: Command, fails: bool) returns (ok: bool)
      modifies this
      ensures (chains, ok) == Run(old(chains), c, fails)
    {
      match c {
        case AddRule(at, r) =>
          ok := !fails;
          if ok {
            chains := Put(chains, at, Get(chains, at) + [r]);
          }
        case DeleteRule(at, r, quiet) =>
          ok := !fails && r in Get(chains, at);
          if ok {
            chains := Put(chains, at, DeleteFirst(Get(chains, at), r));
          }
          ok := ok || quiet;
        case EnableForwarding => ok := !fails;
      }
    }

    /** The loop around `subprocess.run` with its `success` flag. */
    method ExecuteAll(commands: seq<Command>, fails: int -> bool) returns (success: bool)
      modifies this
      ensures (chains, success) == RunAll(old(chains), commands, fails)
    {
      success := true;
      for i := 0 to |commands|
        invariant (chains, success) == RunAll(old(chains), commands[..i], fails)
      {
        assert commands[..i + 1][..i] == commands[..i];
        var ok := Execute(commands[i], fails(i));
        if !ok {
          success := false;
        }
      }
      assert commands[..|commands|] == commands;
    }
  }

  class KillSwitch {
    const tables: Iptables
    const port: int
    var enabled: bool

    constructor (tables: Iptables, port: int)
      ensures this.tables == tables && this.port == port && !enabled
    {
      this.tables, this.port, enabled := tables, port, false;
    }

    /** `enable` on Linux; the command list is built as the source builds it. */
    method Enable(host: Option<string>, fails: int -> bool) returns (success: bool)
      modifies this, tables
      ensures old(enabled) ==> success && enabled && tables.chains == old(tables.chains)
      ensures !old(enabled) ==>
                (tables.chains, success) == RunAll(old(tables.chains), SwitchOn(port, host), fails) && enabled == success
    {
      if enabled {
        return true;
      }
      var commands := [AddRule(Mangle, MarkUdp(port)), AddRule(Output, DropUnmarked),
                       AddRule(Output, AcceptDns(Udp)), AddRule(Output, AcceptDns(Tcp))];
      if host.Some? && host.value != "" {
        commands := commands[..1] + [AddRule(Output, AcceptTo(host.value))] + commands[1..];
      }
      assert commands == SwitchOn(port, host);
      success := tables.ExecuteAll(commands, fails);
      if success {
        enabled := true;
      }
    }

    /** `disable` on Linux: exit codes are ignored and it always reports success. */
    method Disable(fails: int -> bool) returns (success: bool)
      modifies this, tables
      ensures success && !enabled
      ensures tables.chains == if old(enabled) then RunAll(old(tables.chains), SwitchOff(port), fails).0 else old(tables.chains)
    {
      if enabled {
        var _ := tables.ExecuteAll(SwitchOff(port), fails);
        enabled := false;
      }
      return true;
    }
  }

  /** The word after the first "dev" of the default route's line. */
  function AfterDev(words: seq<string>): Option<string> {
    if |words| < 2 then None else if words[0] == "dev" then Some(words[1]) else AfterDev(words[1..])
  }

  /** `_get_main_interface`: no words stand for a command that failed. */
  function MainInterface(words: Option<seq<string>>): string {
    if words.Some? && AfterDev(words.value).Some? then AfterDev(words.value).value else "eth0"
  }

  /** The word found is the one behind the first "dev", if one is behind it. */
  lemma {:induction false} AfterDevExactly(words: seq<string>, name: string)
    ensures AfterDev(words) == Some(name) <==>
              exists k :: 0 <= k < |words| - 1 && words[k] == "dev" && words[k + 1] == name && "dev" !in words[..k]
  {
    if |words| >= 2 && words[0] == "dev" {
      assert words[..0] == [];
    } else if |words| >= 2 {
      var rest := words[1..];
      AfterDevExactly(rest, name);
      if k :| 0 <= k < |rest| - 1 && rest[k] == "dev" && rest[k + 1] == name && "dev" !in rest[..k] {
        assert words[..k + 1] == [words[0]] + rest[..k];
        assert words[k + 1] == "dev" && words[k + 2] == name;
      }
      if k :| 0 <= k < |words| - 1 && words[k] == "dev" && words[k + 1] == name && "dev" !in words[..k] {
        assert words[..k] == [words[0]] + rest[..k - 1];
        assert rest[k - 1] == "dev" && rest[k] == name;
      }
    }
  }

  /** The main interface is the word behind the first "dev", and eth0 exactly when the
      command failed or there is none. */
  lemma MainInterfaceExactly(words: Option<seq<string>>)
    ensures var found := words.Some? &&
              exists k :: 0 <= k < |words.value| - 1 && words.value[k] == "dev" && "dev" !in words.value[..k];
            if found
            then exists k :: 0 <= k < |words.value| - 1 && words.value[k] == "dev" && "dev" !in words.value[..k] &&
                             MainInterface(words) == words.value[k + 1]
            else MainInterface(words) == "eth0"
  {
    if words.Some? {
      if AfterDev(words.value).Some? {
        AfterDevExactly(words.value, AfterDev(words.value).value);
      } else {
        forall k | 0 <= k < |words.value| - 1 && words.value[k] == "dev"
          ensures "dev" in words.value[..k]
        {
          AfterDevExactly(words.value, words.value[k + 1]);
        }
      }
    }
  }

  class NatManager {
    const tables: Iptables
    const tun: string
    const subnet: string

    constructor (tables: Iptables, tun: string, subnet: string)
      ensures this.tables == tables && this.tun == tun && this.subnet == subnet
    {
      this.tables, this.tun, this.subnet := tables, tun, subnet;
    }

    /** `_setup_linux`; `words` are those of the default route when it runs. */
    method Setup(words: Option<seq<string>>, fails: int -> bool) returns (success: bool)
      modifies tables
      ensures (tables.chains, success) == RunAll(old(tables.chains), NatOn(tun, subnet, MainInterface(words)), fails)
    {
      success := tables.ExecuteAll(NatOn(tun, subnet, MainInterface(words)), fails);
    }

    /** `_teardown_linux`, which detects the main interface anew. */
    method Teardown(words: Option<seq<string>>, fails: int -> bool) returns (success: bool)
      modifies tables
      ensures success && tables.chains == RunAll(old(tables.chains), NatOff(tun, subnet, MainInterface(words)), fails).0
    {
      var _ := tables.ExecuteAll(NatOff(tun, subnet, MainInterface(words)), fails);
      return true;
    }
  }

  // ------------------------------------------------------------ what chains do

  datatype Packet = Packet(protocol: Protocol, dport: int, dst: string, out: string, mark: int)

  datatype Effect = Pass | AcceptIt | DropIt | SetMark(m: int)

  /** `other` says what the rules of somebody else do. */
  function Judge(r: Rule, p: Packet, other: (string, Packet) -> Effect): Effect {
    match r
    case MarkUdp(d) => if p.protocol == Udp && p.dport == d then SetMark(1) else Pass
    case AcceptTo(h) => if p.dst == h then AcceptIt else Pass
    case DropUnmarked => if p.out != "lo" && p.mark != 1 then DropIt else Pass
    case AcceptDns(q) => if p.protocol == q && p.dport == 53 then AcceptIt else Pass
    case Foreign(t) => other(t, p)
    case _ => Pass
  }

  datatype Verdict = Accepted | Dropped | Undecided

  /** First match decides; setting the mark goes on with the marked packet. */
  function Traverse(c: Chain, p: Packet, other: (string, Packet) -> Effect): (Packet, Verdict) {
    if c == [] then (p, Undecided)
    else
      match Judge(c[0], p, other)
      case Pass => Traverse(c[1..], p, other)
      case SetMark(m) => Traverse(c[1..], p.(mark := m), other)
      case AcceptIt => (p, Accepted)
      case DropIt => (p, Dropped)
  }

  /** An outgoing packet: mangle first, then filter, whose policy is ACCEPT. */
  predicate Leaves(cs: Chains, p: Packet, other: (string, Packet) -> Effect) {
    var (q, v) := Traverse(cs.mangle, p, other);
    v != Dropped && Traverse(cs.output, q, other).1 != Dropped
  }

  lemma {:induction false} TraverseAppend(c: Chain, d: Chain, p: Packet, other: (string, Packet) -> Effect)
    ensures var (q, v) := Traverse(c, p, other);
            Traverse(c + d, p, other) == if v == Undecided then Traverse(d, q, other) else (q, v)
  {
    if c == [] {
      assert c + d == d;
    } else {
      assert (c + d)[1..] == c[1..] + d;
      TraverseAppend(c[1..], d, p, other);
      if Judge(c[0], p, other).SetMark? {
        TraverseAppend(c[1..], d, p.(mark := Judge(c[0], p, other).m), other);
      }
    }
  }

  const NO_FAULT: int -> bool := _ => false

  function Marking(port: int): Chain { [MarkUdp(port)] }

  function Blocking(host: Option<string>): Chain {
    (if host.Some? && host.value != "" then [AcceptTo(host.value)] else [])
    + [DropUnmarked, AcceptDns(Udp), AcceptDns(Tcp)]
  }

  lemma SwitchOnAppends(cs: Chains, port: int, host: Option<string>)
    ensures RunAll(cs, SwitchOn(port, host), NO_FAULT) ==
            (cs.(mangle := cs.mangle + Marking(port), output := cs.output + Blocking(host)), true)
  {
    var all := SwitchOn(port, host);
    var named := host.Some? && host.value != "";
    var first := [AddRule(Mangle, MarkUdp(port))] + if named then [AddRule(Output, AcceptTo(host.value))] else [];
    var a := cs.(mangle := cs.mangle + Marking(port));
    var b := if named then a.(output := a.output + [AcceptTo(host.value)]) else a;
    RunMore(cs, [], AddRule(Mangle, MarkUdp(port)));
    if named {
      RunMore(cs, [AddRule(Mangle, MarkUdp(port))], AddRule(Output, AcceptTo(host.value)));
    }
    assert RunAll(cs, first, NO_FAULT) == (b, true);
    var second := first + [AddRule(Output, DropUnmarked)];
    var third := second + [AddRule(Output, AcceptDns(Udp))];
    RunMore(cs, first, AddRule(Output, DropUnmarked));
    RunMore(cs, second, AddRule(Output, AcceptDns(Udp)));
    RunMore(cs, third, AddRule(Output, AcceptDns(Tcp)));
    assert all == third + [AddRule(Output, AcceptDns(Tcp))];
    assert b.output + [DropUnmarked] + [AcceptDns(Udp)] + [AcceptDns(Tcp)] == cs.output + Blocking(host);
  }

  lemma RunMore(cs: Chains, commands: seq<Command>, c: Command)
    ensures var (before, ok) := RunAll(cs, commands, NO_FAULT);
            var (after, done) := Run(before, c, false);
            RunAll(cs, commands + [c], NO_FAULT) == (after, ok && done)
  {
    assert (commands + [c])[..|commands|] == commands;
  }

  /** The rules already there let `p` through to the new ones, marked or not. */
  predicate FallsThrough(cs: Chains, p: Packet, other: (string, Packet) -> Effect) {
    Traverse(cs.mangle, p, other) == (p, Undecided) &&
    Traverse(cs.output, p, other) == (p, Undecided) &&
    Traverse(cs.output, p.(mark := 1), other) == (p.(mark := 1), Undecided)
  }

  /** After a successful enable, a packet the old rules do not decide leaves exactly if
      it carries the mark already, is on the loopback interface, is UDP to the VPN port,
      or is addressed to the server. Empty chains decide no packet. */
  lemma KillSwitchExact(cs: Chains, port: int, host: Option<string>, p: Packet, other: (string, Packet) -> Effect)
    requires (cs.mangle == [] && cs.output == []) || FallsThrough(cs, p, other)
    ensures var after := RunAll(cs, SwitchOn(port, host), NO_FAULT).0;
            Leaves(after, p, other) <==>
              p.mark == 1 || p.out == "lo" || (p.protocol == Udp && p.dport == port) || (host.Some? && host.value != "" && p.dst == host.value)
  {
    SwitchOnAppends(cs, port, host);
    TraverseAppend(cs.mangle, Marking(port), p, other);
    assert Marking(port)[1..] == [];
    var q := if p.protocol == Udp && p.dport == port then p.(mark := 1) else p;
    assert Traverse(Marking(port), p, other) == (q, Undecided);
    TraverseAppend(cs.output, Blocking(host), q, other);
    BlockingDecides(host, q, other);
  }

  /** A rule of somebody else does what its author meant before any rule behind it. */
  lemma ForeignFirst(t: string, rest: Chain, p: Packet, other: (string, Packet) -> Effect)
    ensures Traverse([Foreign(t)] + rest, p, other) ==
            match other(t, p)
            case Pass => Traverse(rest, p, other)
            case SetMark(m) => Traverse(rest, p.(mark := m), other)
            case AcceptIt => (p, Accepted)
            case DropIt => (p, Dropped)
  {
    assert ([Foreign(t)] + rest)[1..] == rest;
  }

  /** The switch's rules are appended: what the old rules accept leaves even with the switch
      on, what they drop stays, and only the rest is the switch's. */
  lemma OldRulesDecide(cs: Chains, port: int, host: Option<string>, p: Packet, other: (string, Packet) -> Effect)
    requires Traverse(cs.mangle, p, other) == (p, Undecided)
    ensures var q := if p.protocol == Udp && p.dport == port then p.(mark := 1) else p;
            var before := Traverse(cs.output, q, other).1;
            before != Undecided ==> (Leaves(RunAll(cs, SwitchOn(port, host), NO_FAULT).0, p, other) <==> before == Accepted)
  {
    SwitchOnAppends(cs, port, host);
    TraverseAppend(cs.mangle, Marking(port), p, other);
    assert Marking(port)[1..] == [];
    var q := if p.protocol == Udp && p.dport == port then p.(mark := 1) else p;
    assert Traverse(Marking(port), p, other) == (q, Undecided);
    TraverseAppend(cs.output, Blocking(host), q, other);
  }

  lemma DnsNeverDrops(q: Packet, other: (string, Packet) -> Effect)
    ensures Traverse([AcceptDns(Udp), AcceptDns(Tcp)], q, other).1 != Dropped
  {
    assert [AcceptDns(Udp), AcceptDns(Tcp)][1..] == [AcceptDns(Tcp)];
    assert [AcceptDns(Tcp)][1..] == [];
    assert Traverse([AcceptDns(Tcp)], q, other).1 != Dropped;
  }

  lemma BlockingDecides(host: Option<string>, q: Packet, other: (string, Packet) -> Effect)
    ensures Traverse(Blocking(host), q, other).1 == Dropped <==>
              q.out != "lo" && q.mark != 1 && !(host.Some? && host.value != "" && q.dst == host.value)
  {
    var tail := [DropUnmarked, AcceptDns(Udp), AcceptDns(Tcp)];
    DnsNeverDrops(q, other);
    assert tail[1..] == [AcceptDns(Udp), AcceptDns(Tcp)];
    if host.Some? && host.value != "" {
      assert Blocking(host)[1..] == tail;
    } else {
      assert Blocking(host) == tail;
    }
  }

  /** What the rules of a switch say of a packet that reaches them: the server rule takes
      the server's, DROP what is unmarked and not on loopback, and of the rest the last two
      rules accept DNS. */
  lemma BlockingVerdict(host: Option<string>, q: Packet, other: (string, Packet) -> Effect)
    ensures Traverse(Blocking(host), q, other) ==
            (q, if host.Some? && host.value != "" && q.dst == host.value then Accepted
                else if q.out != "lo" && q.mark != 1 then Dropped
                else if q.dport == 53 && q.protocol in {Udp, Tcp} then Accepted
                else Undecided)
  {
    var dns := [AcceptDns(Udp), AcceptDns(Tcp)];
    assert dns[1..] == [AcceptDns(Tcp)] && [AcceptDns(Tcp)][1..] == [];
    assert Traverse([AcceptDns(Tcp)], q, other) == (q, if q.protocol == Tcp && q.dport == 53 then Accepted else Undecided);
    assert Traverse(dns, q, other) == (q, if q.protocol in {Udp, Tcp} && q.dport == 53 then Accepted else Undecided);
    var tail := [DropUnmarked, AcceptDns(Udp), AcceptDns(Tcp)];
    assert tail[1..] == dns;
    if host.Some? && host.value != "" {
      assert Blocking(host)[1..] == tail;
    } else {
      assert Blocking(host) == tail;
    }
  }

  /** The server rule works only because it is inserted before DROP: appended at the
      end it would save no packet that DROP takes. */
  lemma ServerRuleMustComeFirst(host: string, q: Packet, other: (string, Packet) -> Effect)
    ensures Traverse(Blocking(None) + [AcceptTo(host)], q, other).1 == Dropped <==> q.out != "lo" && q.mark != 1
  {
    BlockingDecides(None, q, other);
    TraverseAppend(Blocking(None), [AcceptTo(host)], q, other);
    var r := Traverse(Blocking(None), q, other).0;
    assert [AcceptTo(host)][1..] == [];
    assert Traverse([AcceptTo(host)], r, other).1 != Dropped;
  }

  /** The "Allow DNS" rules come after DROP, so they never change what is dropped. */
  lemma DnsRulesAreDead(host: Option<string>, q: Packet, other: (string, Packet) -> Effect)
    ensures Traverse(Blocking(host), q, other).1 == Dropped <==>
            Traverse(Blocking(host)[..|Blocking(host)| - 2], q, other).1 == Dropped
  {
    var cut := Blocking(host)[..|Blocking(host)| - 2];
    assert Blocking(host) == cut + [AcceptDns(Udp), AcceptDns(Tcp)];
    TraverseAppend(cut, [AcceptDns(Udp), AcceptDns(Tcp)], q, other);
    DnsNeverDrops(Traverse(cut, q, other).0, other);
  }

  // -------------------------------------------------------------- conservation

  lemma {:induction false} DeleteFirstMultiset(c: Chain, r: Rule)
    ensures multiset(DeleteFirst(c, r)) == multiset(c) - multiset{r}
    ensures r !in c ==> DeleteFirst(c, r) == c
  {
    if c != [] && c[0] != r {
      DeleteFirstMultiset(c[1..], r);
      assert c == [c[0]] + c[1..];
    } else if c != [] {
      assert c == [c[0]] + c[1..];
    }
  }

  lemma {:induction false} DeleteFirstLater(c: Chain, r: Rule, d: Chain)
    requires r !in c
    ensures DeleteFirst(c + d, r) == c + DeleteFirst(d, r)
  {
    if c == [] {
      assert c + d == d;
    } else {
      assert (c + d)[1..] == c[1..] + d;
      DeleteFirstLater(c[1..], r, d);
    }
  }

  /** Deleting a rule that is not there fails and changes nothing. */
  lemma RunDelete(cs: Chains, at: Place, r: Rule, quiet: bool)
    ensures Run(cs, DeleteRule(at, r, quiet), false).0 == Put(cs, at, DeleteFirst(Get(cs, at), r))
  {
    DeleteFirstMultiset(Get(cs, at), r);
  }

  const BLOCK_RULES: seq<Rule> := [DropUnmarked, AcceptDns(Udp), AcceptDns(Tcp)]

  function Unblock(c: Chain): Chain {
    DeleteFirst(DeleteFirst(DeleteFirst(c, DropUnmarked), AcceptDns(Udp)), AcceptDns(Tcp))
  }

  /** Running two lists one after the other. */
  lemma {:induction false} RunAllTwo(cs: Chains, one: seq<Command>, two: seq<Command>)
    ensures RunAll(cs, one + two, NO_FAULT).0 == RunAll(RunAll(cs, one, NO_FAULT).0, two, NO_FAULT).0
  {
    if two == [] {
      assert one + two == one;
    } else {
      var n := |two| - 1;
      RunAllTwo(cs, one, two[..n]);
      RunMore(cs, one + two[..n], two[n]);
      RunMore(RunAll(cs, one, NO_FAULT).0, two[..n], two[n]);
      assert one + two == one + two[..n] + [two[n]] && two == two[..n] + [two[n]];
    }
  }

  lemma DeleteTwo(cs: Chains, at: Place, r: Rule, also: Place, s: Rule)
    ensures var one := Put(cs, at, DeleteFirst(Get(cs, at), r));
            RunAll(cs, [DeleteRule(at, r, false), DeleteRule(also, s, false)], NO_FAULT).0 ==
            Put(one, also, DeleteFirst(Get(one, also), s))
  {
    var one := Put(cs, at, DeleteFirst(Get(cs, at), r));
    RunDelete(cs, at, r, false);
    RunDelete(one, also, s, false);
    RunMore(cs, [], DeleteRule(at, r, false));
    RunMore(cs, [] + [DeleteRule(at, r, false)], DeleteRule(also, s, false));
    assert [] + [DeleteRule(at, r, false)] + [DeleteRule(also, s, false)] == [DeleteRule(at, r, false), DeleteRule(also, s, false)];
  }

  lemma SwitchOffDeletes(cs: Chains, port: int)
    ensures RunAll(cs, SwitchOff(port), NO_FAULT).0 ==
            cs.(mangle := DeleteFirst(cs.mangle, MarkUdp(port)), output := Unblock(cs.output))
  {
    var all := SwitchOff(port);
    assert all == [all[0], all[1]] + [all[2], all[3]];
    RunAllTwo(cs, [all[0], all[1]], [all[2], all[3]]);
    DeleteTwo(cs, Mangle, MarkUdp(port), Output, DropUnmarked);
    DeleteTwo(RunAll(cs, [all[0], all[1]], NO_FAULT).0, Output, AcceptDns(Udp), Output, AcceptDns(Tcp));
  }

  /** The server rule that a disable leaves behind. */
  function Leftover(host: Option<string>): Chain {
    if host.Some? && host.value != "" then [AcceptTo(host.value)] else []
  }

  /** Enable then disable keeps every chain's rules, except that the server rule stays;
      and it keeps their order too when none of its own rules was there before. */
  lemma OnThenOff(cs: Chains, port: int, host: Option<string>)
    ensures var after := RunAll(RunAll(cs, SwitchOn(port, host), NO_FAULT).0, SwitchOff(port), NO_FAULT).0;
            multiset(after.mangle) == multiset(cs.mangle) &&
            multiset(after.output) == multiset(cs.output) + multiset(Leftover(host)) &&
            after.postrouting == cs.postrouting && after.forward == cs.forward
    ensures var after := RunAll(RunAll(cs, SwitchOn(port, host), NO_FAULT).0, SwitchOff(port), NO_FAULT).0;
            (MarkUdp(port) !in cs.mangle ==> after.mangle == cs.mangle) &&
            ((forall r :: r in BLOCK_RULES ==> r !in cs.output) ==> after.output == cs.output + Leftover(host))
  {
    SwitchOnAppends(cs, port, host);
    var on := RunAll(cs, SwitchOn(port, host), NO_FAULT).0;
    SwitchOffDeletes(on, port);
    OffMultiset(cs.mangle, cs.output, port, host);
    OffExact(cs.mangle, cs.output, port, host);
  }

  /** Deleting gives back what one more `r` had been added to. */
  lemma DeleteAdded(c: Chain, kept: multiset<Rule>, r: Rule)
    requires multiset(c) == kept + multiset{r}
    ensures multiset(DeleteFirst(c, r)) == kept
  {
    DeleteFirstMultiset(c, r);
  }

  /** Unblocking takes back one each of the three blocking rules. */
  lemma UnblockAdded(c: Chain, kept: multiset<Rule>)
    requires multiset(c) == kept + multiset{AcceptDns(Tcp)} + multiset{AcceptDns(Udp)} + multiset{DropUnmarked}
    ensures multiset(Unblock(c)) == kept
  {
    DeleteAdded(c, kept + multiset{AcceptDns(Tcp)} + multiset{AcceptDns(Udp)}, DropUnmarked);
    var d := DeleteFirst(c, DropUnmarked);
    DeleteAdded(d, kept + multiset{AcceptDns(Tcp)}, AcceptDns(Udp));
    DeleteAdded(DeleteFirst(d, AcceptDns(Udp)), kept, AcceptDns(Tcp));
  }

  lemma AppendOne(c: Chain, r: Rule)
    ensures multiset(c + [r]) == multiset(c) + multiset{r}
  {
  }

  lemma AppendThree(kept: Chain, a: Rule, b: Rule, c: Rule)
    ensures multiset(kept + [a] + [b] + [c]) == multiset(kept) + multiset{c} + multiset{b} + multiset{a}
  {
    AppendOne(kept, a);
    AppendOne(kept + [a], b);
    AppendOne(kept + [a] + [b], c);
  }

  lemma BlockingShape(output: Chain, host: Option<string>)
    ensures output + Blocking(host) ==
            output + Leftover(host) + [DropUnmarked] + [AcceptDns(Udp)] + [AcceptDns(Tcp)]
  {
  }

  lemma BlockingMultiset(output: Chain, host: Option<string>)
    ensures multiset(output + Blocking(host)) ==
            multiset(output + Leftover(host)) +
            multiset{AcceptDns(Tcp)} + multiset{AcceptDns(Udp)} + multiset{DropUnmarked}
  {
    BlockingShape(output, host);
    AppendThree(output + Leftover(host), DropUnmarked, AcceptDns(Udp), AcceptDns(Tcp));
  }

  lemma OffMultiset(mangle: Chain, output: Chain, port: int, host: Option<string>)
    ensures multiset(DeleteFirst(mangle + Marking(port), MarkUdp(port))) == multiset(mangle)
    ensures multiset(Unblock(output + Blocking(host))) == multiset(output) + multiset(Leftover(host))
  {
    DeleteAdded(mangle + Marking(port), multiset(mangle), MarkUdp(port));
    BlockingMultiset(output, host);
    UnblockAdded(output + Blocking(host), multiset(output + Leftover(host)));
  }

  lemma OffExact(mangle: Chain, output: Chain, port: int, host: Option<string>)
    ensures MarkUdp(port) !in mangle ==> DeleteFirst(mangle + Marking(port), MarkUdp(port)) == mangle
    ensures (forall r :: r in BLOCK_RULES ==> r !in output) ==> Unblock(output + Blocking(host)) == output + Leftover(host)
  {
    if MarkUdp(port) !in mangle {
      DeleteFirstLater(mangle, MarkUdp(port), Marking(port));
    }
    if forall r :: r in BLOCK_RULES ==> r !in output {
      assert BLOCK_RULES[0] in BLOCK_RULES && BLOCK_RULES[1] in BLOCK_RULES && BLOCK_RULES[2] in BLOCK_RULES;
      var kept := output + Leftover(host);
      assert output + Blocking(host) == kept + [DropUnmarked, AcceptDns(Udp), AcceptDns(Tcp)];
      DeleteFirstLater(kept, DropUnmarked, [DropUnmarked, AcceptDns(Udp), AcceptDns(Tcp)]);
      DeleteFirstLater(kept, AcceptDns(Udp), [AcceptDns(Udp), AcceptDns(Tcp)]);
      DeleteFirstLater(kept, AcceptDns(Tcp), [AcceptDns(Tcp)]);
    }
  }

  /** An enable that fails leaves the switch off, so the disable after it does nothing:
      the chains come back exactly when not one of the commands had succeeded. */
  lemma FailedEnableStays(cs: Chains, port: int, host: Option<string>, fails: int -> bool)
    ensures var commands := SwitchOn(port, host);
            RunAll(cs, commands, fails).0 == cs <==> forall i :: 0 <= i < |commands| ==> fails(i)
    ensures var commands := SwitchOn(port, host);
            RunAll(cs, commands, fails).1 <==> forall i :: 0 <= i < |commands| ==> !fails(i)
  {
    AppendsOnly(cs, SwitchOn(port, host), fails);
  }

  function Size(cs: Chains): nat {
    |cs.mangle| + |cs.output| + |cs.postrouting| + |cs.forward|
  }

  /** Appends change nothing exactly when every one of them fails. */
  lemma {:induction false} AppendsOnly(cs: Chains, commands: seq<Command>, fails: int -> bool)
    requires forall i :: 0 <= i < |commands| ==> commands[i].AddRule?
    ensures Size(RunAll(cs, commands, fails).0) >= Size(cs)
    ensures Size(RunAll(cs, commands, fails).0) == Size(cs) ==> RunAll(cs, commands, fails).0 == cs
    ensures RunAll(cs, commands, fails).0 == cs <==> forall i :: 0 <= i < |commands| ==> fails(i)
    ensures RunAll(cs, commands, fails).1 <==> forall i :: 0 <= i < |commands| ==> !fails(i)
  {
    if commands != [] {
      AppendsOnly(cs, commands[..|commands| - 1], fails);
    }
  }

  lemma NatOnResult(cs: Chains, tun: string, subnet: string, main: string)
    ensures RunAll(cs, NatOn(tun, subnet, main), NO_FAULT) ==
            (cs.(postrouting := DeleteFirst(cs.postrouting, Masquerade(subnet, main)) + [Masquerade(subnet, main)],
                 forward := cs.forward + [ForwardOut(tun, main)] + [ForwardBack(main, tun)]), true)
  {
    var all := NatOn(tun, subnet, main);
    var m := Masquerade(subnet, main);
    RunDelete(cs, Postrouting, m, true);
    RunMore(cs, [], all[0]);
    RunMore(cs, [all[0]], all[1]);
    RunMore(cs, [all[0]] + [all[1]], all[2]);
    RunMore(cs, [all[0]] + [all[1]] + [all[2]], all[3]);
    RunMore(cs, [all[0]] + [all[1]] + [all[2]] + [all[3]], all[4]);
    assert all == [all[0]] + [all[1]] + [all[2]] + [all[3]] + [all[4]];
  }

  lemma NatOffResult(cs: Chains, tun: string, subnet: string, main: string)
    ensures RunAll(cs, NatOff(tun, subnet, main), NO_FAULT).0 ==
            cs.(postrouting := DeleteFirst(cs.postrouting, Masquerade(subnet, main)),
                forward := DeleteFirst(DeleteFirst(cs.forward, ForwardOut(tun, main)), ForwardBack(main, tun)))
  {
    var all := NatOff(tun, subnet, main);
    var a := cs.(postrouting := DeleteFirst(cs.postrouting, Masquerade(subnet, main)));
    var b := a.(forward := DeleteFirst(a.forward, ForwardOut(tun, main)));
    RunDelete(cs, Postrouting, Masquerade(subnet, main), false);
    RunDelete(a, Forward, ForwardOut(tun, main), false);
    RunDelete(b, Forward, ForwardBack(main, tun), false);
    RunMore(cs, [], all[0]);
    RunMore(cs, [all[0]], all[1]);
    RunMore(cs, [all[0]] + [all[1]], all[2]);
    assert all == [all[0]] + [all[1]] + [all[2]];
  }

  /** None of the NAT rules for this main interface is there. */
  predicate NoNat(cs: Chains, tun: string, subnet: string, main: string) {
    Masquerade(subnet, main) !in cs.postrouting && ForwardOut(tun, main) !in cs.forward && ForwardBack(main, tun) !in cs.forward
  }

  lemma NatUndone(cs: Chains, tun: string, subnet: string, main: string)
    requires NoNat(cs, tun, subnet, main)
    ensures RunAll(RunAll(cs, NatOn(tun, subnet, main), NO_FAULT).0, NatOff(tun, subnet, main), NO_FAULT).0 == cs
  {
    NatOnResult(cs, tun, subnet, main);
    var on := RunAll(cs, NatOn(tun, subnet, main), NO_FAULT).0;
    NatOffResult(on, tun, subnet, main);
    DeleteFirstMultiset(cs.postrouting, Masquerade(subnet, main));
    DeleteFirstLater(cs.postrouting, Masquerade(subnet, main), [Masquerade(subnet, main)]);
    assert cs.forward + [ForwardOut(tun, main)] + [ForwardBack(main, tun)] ==
           cs.forward + [ForwardOut(tun, main), ForwardBack(main, tun)];
    DeleteFirstLater(cs.forward, ForwardOut(tun, main), [ForwardOut(tun, main), ForwardBack(main, tun)]);
    assert [ForwardOut(tun, main), ForwardBack(main, tun)][1..] == [ForwardBack(main, tun)];
    DeleteFirstLater(cs.forward, ForwardBack(main, tun), [ForwardBack(main, tun)]);
  }

  /** A teardown for an interface without rules takes nothing away. */
  lemma NatOffMisses(cs: Chains, tun: string, subnet: string, later: string)
    requires NoNat(cs, tun, subnet, later)
    ensures RunAll(cs, NatOff(tun, subnet, later), NO_FAULT).0 == cs
  {
    NatOffResult(cs, tun, subnet, later);
    DeleteFirstMultiset(cs.postrouting, Masquerade(subnet, later));
    DeleteFirstMultiset(cs.forward, ForwardOut(tun, later));
    DeleteFirstMultiset(cs.forward, ForwardBack(later, tun));
  }

  /** The rules of a setup are not those of a teardown for another interface. */
  lemma NatStays(cs: Chains, tun: string, subnet: string, main: string, later: string)
    requires NoNat(cs, tun, subnet, later) && main != later
    ensures NoNat(RunAll(cs, NatOn(tun, subnet, main), NO_FAULT).0, tun, subnet, later)
  {
    NatOnResult(cs, tun, subnet, main);
    DeleteFirstMultiset(cs.postrouting, Masquerade(subnet, main));
    var kept := DeleteFirst(cs.postrouting, Masquerade(subnet, main));
    assert multiset(kept)[Masquerade(subnet, later)] == 0;
  }

  lemma NatAdds(cs: Chains, tun: string, subnet: string, main: string)
    ensures |RunAll(cs, NatOn(tun, subnet, main), NO_FAULT).0.forward| == |cs.forward| + 2
  {
    NatOnResult(cs, tun, subnet, main);
  }

  /** Where the rules were absent, setting NAT up and tearing it down restores the chains,
      order included, exactly if the main interface found is the same both times; when
      it is not, every rule of the setup stays. */
  lemma NatSetupTeardown(cs: Chains, tun: string, subnet: string, main: string, later: string)
    requires NoNat(cs, tun, subnet, main) && NoNat(cs, tun, subnet, later)
    ensures var on := RunAll(cs, NatOn(tun, subnet, main), NO_FAULT).0;
            var off := RunAll(on, NatOff(tun, subnet, later), NO_FAULT).0;
            (off == cs <==> main == later) && (main != later ==> off == on)
  {
    if main == later {
      NatUndone(cs, tun, subnet, main);
    } else {
      NatAdds(cs, tun, subnet, main);
      NatStays(cs, tun, subnet, main, later);
      NatOffMisses(RunAll(cs, NatOn(tun, subnet, main), NO_FAULT).0, tun, subnet, later);
    }
  }

  /** Setups one after the other, each with the main interface it found. */
  function Setups(cs: Chains, tun: string, subnet: string, mains: seq<string>): Chains {
    if mains == [] then cs
    else
      var n := |mains| - 1;
      RunAll(Setups(cs, tun, subnet, mains[..n]), NatOn(tun, subnet, mains[n]), NO_FAULT).0
  }

  function Max(a: nat, b: nat): nat { if a < b then b else a }

  /** How many of the setups added `r` to FORWARD. */
  function Piled(r: Rule, tun: string, mains: seq<string>): nat {
    match r
    case ForwardOut(t, m) => if t == tun then multiset(mains)[m] else 0
    case ForwardBack(m, t) => if t == tun then multiset(mains)[m] else 0
    case _ => 0
  }

  /** Whether one of them added it to POSTROUTING. */
  predicate Masqueraded(r: Rule, subnet: string, mains: seq<string>) {
    r.Masquerade? && r.subnet == subnet && r.out in mains
  }

  lemma MasqueradeStep(c: Chain, m: Rule, r: Rule)
    ensures multiset(DeleteFirst(c, m) + [m])[r] == if r == m then Max(1, multiset(c)[m]) else multiset(c)[r]
  {
    DeleteFirstMultiset(c, m);
  }

  lemma ForwardStep(c: Chain, o: Rule, b: Rule, r: Rule)
    requires o != b
    ensures multiset(c + [o] + [b])[r] == multiset(c)[r] + if r == o || r == b then 1 else 0
  {
  }

  lemma PiledStep(r: Rule, tun: string, subnet: string, mains: seq<string>, main: string)
    ensures Piled(r, tun, mains + [main]) ==
            Piled(r, tun, mains) + if r == ForwardOut(tun, main) || r == ForwardBack(main, tun) then 1 else 0
    ensures Masqueraded(r, subnet, mains + [main]) <==> Masqueraded(r, subnet, mains) || r == Masquerade(subnet, main)
  {
  }

  /** After any setups, whatever interfaces they found: each masquerade rule they wrote is
      there once, or as often as it was before, each forward rule has piled up once for
      every setup that wrote it, and no other rule has come or gone. */
  lemma {:induction false} RepeatedSetups(cs: Chains, tun: string, subnet: string, mains: seq<string>, r: Rule)
    ensures var after := Setups(cs, tun, subnet, mains);
            after.mangle == cs.mangle && after.output == cs.output
    ensures var n := multiset(cs.postrouting)[r];
            multiset(Setups(cs, tun, subnet, mains).postrouting)[r] == if Masqueraded(r, subnet, mains) then Max(1, n) else n
    ensures multiset(Setups(cs, tun, subnet, mains).forward)[r] == multiset(cs.forward)[r] + Piled(r, tun, mains)
  {
    if mains != [] {
      var front, main := mains[..|mains| - 1], mains[|mains| - 1];
      var before := Setups(cs, tun, subnet, front);
      assert mains == front + [main];
      RepeatedSetups(cs, tun, subnet, front, r);
      PiledStep(r, tun, subnet, front, main);
      NatOnResult(before, tun, subnet, main);
      MasqueradeStep(before.postrouting, Masquerade(subnet, main), r);
      ForwardStep(before.forward, ForwardOut(tun, main), ForwardBack(main, tun), r);
    }
  }
}
