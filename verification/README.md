# VPN From Scratch: a verified model

This project models the protocol and control logic of a small VPN and proves what it
keeps. Four systems are modelled, each as the program text has it:

* **The handshake.** `Framing` and `Handshake` hold the messages, the socket reads that
  may return any chunk, and the two sequential programs, each proved against a function
  of the bytes it receives. `HandshakeProtocol` runs both programs concurrently over two
  byte pipes: a step delivers some bytes, sends or handles one message, or is a dropped
  connection, a client timeout, an end of file. The main results are about every
  schedule: agreement, an outcome that does not depend on the schedule, and progress.
* **The encrypted tunnel.** `Tunnel` steps through every worker thread of any number of
  clients and of the server, one attribute access or socket call at a time, over a UDP
  network that loses, duplicates, reorders, reflects, splices and injects. `Delivery`
  proves what one turn of each loop does and that packets arrive, `Traffic` the counters
  over the same steps. `Registry` interleaves any number of server
  handler threads. `Lifecycle` and `Handles` connect and disconnect the client with a
  failure possible at every stage.
* **Full-VPN routing.** `Routes` and `Gateway`: longest-prefix match over all IPv4
  addresses, taking the routes out again, and the choice of the old default gateway.
* **The firewall.** `Firewall`: the exact iptables command lists, what they do to the
  rule chains, and what the chains do to packets.

`EndToEnd` joins the first two: the sessions of the tunnel are those the handshakes made,
and its key installs are those of the handlers. `Bytes` (big-endian numbers, Python's byte order, hexadecimal text),
`Crypto` and `Config` (saved settings) serve them.

Cryptography is symbolic and uses no axioms. A private key is named by its public key, so
an X25519 shared secret is the unordered pair of two names; HKDF is a term of secret, salt
and label; and each byte of an AES-GCM output carries, beside its value, what it seals.
Nonces, salts, ciphertext bytes, clocks, route listings, the public keys that X25519
rejects and the success of system calls are inputs.

A `Setup` of the handshake machine and a `World` of the tunnel machine fix these inputs; a
schedule is any finite list of actions; `Execute` is the state it leads to, or None when
an action was not possible. `Inv`, `Provenance`, `Books` and `Balanced` are the inductive
invariants. Methods of classes carry the state changes of the program's objects and
equate the new state with a specification function, about which the lemmas speak.

## What the proofs found

Where the code does not do what its comments or names say, the model follows the code,
and the lemma named states exactly when or how.

* Equal public keys never complete a handshake: both ends take the second key
  (`Crypto.DirectionsMirror`, `Crypto.EqualKeysCollide`).
* A server can be left with keys and no client (`HandshakeProtocol.HalfOpen`): on exactly
  the schedules where the client times out or meets an end of file
  (`HandshakeProtocol.HalfOpenBySchedule`), and for exactly the settings under which a
  handshake without faults succeeds (`HandshakeProtocol.HalfOpenBySettings`). The client may end in `ValueError` or `struct.error`
  where its documentation promises `HandshakeError`: exactly when is stated by
  `Handshake.ClientValueErrorExactly` and `Handshake.ClientStructErrorExactly`, with inputs
  in `Handshake.OtherErrorsHappen`.
* A failed handshake removes the map entry of another live client with the same IP
  (`Registry.FailedHandshakeEvicts`, `Registry.ListedExactly`), and two key installs that
  overlap can leave the tunnel with keys of two sessions
  (`Registry.OverlappingInstallsMix`; exactly when: `Registry.TunnelKeys`; what no client
  then gets through: `EndToEnd.MixedCiphers`).
* Any datagram, also one that does not open, moves the address the server sends to
  (`Delivery.RxRejects`).
* A connect that fails when starting a thread leaves the workers' flag set
  (`Handles.FailedConnectFlag`).
* Enabling full-VPN mode for a second server without disabling leaks the first host route
  (`Routes.SwitchingServersLeaks`). The gateway detection skips on-link default routes, so
  the server may be moved to another next hop (`Routes.ServerKeepsItsGateway`), or into the
  tunnel itself (`Routes.OnLinkServerIsTunnelled`).
* The kill switch appends its rules, so what an older rule accepts still leaves
  (`Firewall.OldRulesDecide`). The "Allow DNS" rules stand after DROP and allow nothing (`Firewall.DnsRulesAreDead`);
  disabling the kill switch leaves the server's ACCEPT rule (`Firewall.OnThenOff`); after
  an enable that failed in part, disable does nothing (`Firewall.FailedEnableStays`,
  `Firewall.KillSwitch.Disable`); NAT setup piles up FORWARD rules
  (`Firewall.RepeatedSetups`), and a teardown that finds another main interface than the
  setup did removes none of its rules (`Firewall.NatSetupTeardown`).
* Saving a configuration without a private key and loading it takes up an old key file
  (`Config.SaveThenLoad`).

## Model

| member | source | states |
|---|---|---|
| `HandshakeProtocol.StepKeepsInv` | client/handshake.py:136-217 | each send, delivered chunk, handled message, end of file, timeout or drop keeps the invariant that ties both program points, both buffers and both byte streams together |
| `HandshakeProtocol.ReachableInv` | client/handshake.py:281-351 | the invariant holds after every schedule |
| `HandshakeProtocol.Agreement` | client/handshake.py:192-207 | on every schedule, faults included: a client that returned a result has a server that accepted HANDSHAKE_CONFIRM, holds the mirrored keys, sent the port it was given and has at most its return left; and if either of them got that far, all guards of both held |
| `HandshakeProtocol.OutcomeDetermined` | client/handshake.py:143-207 | without faults, both results and all bytes written are the ones the settings determine, the error kind included, and each side succeeds if and only if version, clock, pin, port range and distinct keys allow it |
| `HandshakeProtocol.ClientProgramAgrees` | client/handshake.py:120-217 | the concurrent outcome is what the sequential client computes from the server's bytes |
| `HandshakeProtocol.ServerProgramAgrees` | client/handshake.py:270-351 | likewise for the server |
| `HandshakeProtocol.HonestAck` | client/handshake.py:331-340 | the server accepts the honest confirmation exactly when the public keys differ |
| `HandshakeProtocol.WantedInFrame` | client/handshake.py:225-246 | inside a frame a read never asks for a byte of the next one |
| `HandshakeProtocol.NoDeadlock` | client/handshake.py:238-246 | the two programs never wait for each other, and a server that sent its port leaves no client waiting |
| `HandshakeProtocol.NeverStuck` | client/handshake.py:136-207 | in every reachable state that is not finished a step that is not a fault is possible |
| `HandshakeProtocol.RankDecreases` | client/handshake.py:238-246 | every step lowers a measure of program points and undelivered bytes |
| `HandshakeProtocol.SchedulesAreShort` | client/handshake.py:369-377 | no schedule has more than 198 steps, whatever the chunking |
| `HandshakeProtocol.CanFinish` | client/handshake.py:120-217 | from every reachable state both programs can be brought to their end without further faults |
| `HandshakeProtocol.HalfOpen` | client/handshake.py:209-212 | for every compatible pair, any fault-free start can go on to a server with keys and a failed client |
| `HandshakeProtocol.HalfOpenBySchedule` | client/handshake.py:209-246 | once the server got to its port and the client ended, the client has failed if and only if the schedule holds a client fault or an end of file for it |
| `HandshakeProtocol.HalfOpenBySettings` | client/handshake.py:136-217 | a half-open end is reachable if and only if the settings are those of a successful handshake |
| `HandshakeProtocol.ReadsAreFree` | client/handshake.py:238-246 | a waiting program may be given any number of bytes up to what it asked for and what is there |
| `HandshakeProtocol.Chunks` | client/handshake.py:238-246 | chunking is arbitrary: a bytes and then b bytes can be read exactly if a + b at once can be, to the same effect |
| `HandshakeProtocol.WantedExactly` | client/handshake.py:225-246 | a read asks for more if and only if an end of file now would fail it; once it asks for none, later bytes cannot change it |
| `HandshakeProtocol.EofsAreReal` | client/handshake.py:243-244 | an end of file is met only by a read that wants bytes when none will come |
| `HandshakeProtocol.DropAnywhere` | client/handshake.py:238-246 | a drop may cut each direction anywhere behind what was read, and nothing behind the cut is ever read |
| `HandshakeProtocol.NothingLost` | client/handshake.py:219-223 | without a drop everything written can be read |
| `HandshakeProtocol.FaultsCanHappen` | client/handshake.py:209-217 | the client may time out until it has ended and the server may fail once the connection is gone, and then they end with nothing |
| `Handshake.ClientHelloRoundTrip` | client/handshake.py:40-53 | every version below 2^8, timestamp below 2^64 and 32-byte key survives the codec |
| `Handshake.ClientHelloOnto` | client/handshake.py:49-53 | every 41-byte string is the serialization of what it deserializes to |
| `Handshake.Field32Exactly` | client/handshake.py:42-64 | a key field is the text cut or zero-filled to 32 bytes |
| `Handshake.ServerHelloRoundTrip` | client/handshake.py:62-71 | a 32-byte key and a nonce of any length survive the codec |
| `Handshake.ServerHelloOnto` | client/handshake.py:66-71 | every string of at least 32 bytes survives the reverse |
| `Handshake.HelloLayout` | client/handshake.py:143-149 | when a hello can be sent, and its bytes: type, length, version, time, key |
| `Handshake.GreetingLayout` | client/handshake.py:316-321 | the bytes of the server hello |
| `Handshake.AckLayout` | client/handshake.py:184-189 | the bytes of the confirmation |
| `Handshake.PortLayout` | client/handshake.py:345 | which ports can be sent, and the bytes of that message |
| `Handshake.RefusalLayout` | client/handshake.py:290-299 | the bytes and the texts of a refusal; the version number in the text reads back |
| `Handshake.ServerAcceptsExactly` | client/handshake.py:290-314 | a well-formed hello is accepted exactly for version 1 within 120 seconds with a key X25519 takes; the answer in every other case |
| `Handshake.ServerSilentExactly` | client/handshake.py:283-304 | the server ends without an answer exactly when the message is no serialized hello, or one that only fails for a key X25519 rejects |
| `Handshake.ClientAcceptsExactly` | client/handshake.py:154-179 | keys are derived exactly from a 64-byte server hello whose key X25519 takes and is the pinned one, or any key in insecure mode without a pin; ValueError exactly for such a hello with a rejected key |
| `Handshake.FinalExactly` | client/handshake.py:193-198 | which final messages give which port, and which end in struct.error |
| `Handshake.ClientSucceedsExactly` | client/handshake.py:152-207 | on any incoming bytes, the client succeeds exactly on the frame of an acceptable hello followed by the frame of a final message with that port |
| `Handshake.ClientValueErrorExactly` | client/handshake.py:152-236 | ValueError leaves the client if and only if the first message, or the one after an acceptable hello, is the frame of an unknown type within the size limit, or the first is a trusted hello with a key X25519 rejects |
| `Handshake.ClientStructErrorExactly` | client/handshake.py:42-47 | struct.error leaves the client if and only if its clock does not pack, or an acceptable hello is followed by the frame of an acknowledgement shorter than two bytes |
| `Handshake.OtherErrorsHappen` | client/handshake.py:193-236 | for every client, inputs on which it raises ValueError or struct.error instead of HandshakeError |
| `Handshake.ServerNeedsSealedConfirmation` | client/handshake.py:331-347 | on any incoming bytes, keys are returned only if some byte was sealed under the server's own decryption key for the confirmation text |
| `Handshake.ServerSucceedsExactly` | client/handshake.py:281-347 | on any incoming bytes, keys are returned if and only if an acceptable hello is followed by a confirmation that opens under them and the port can be sent |
| `Handshake.ServerWrites` | client/handshake.py:281-347 | on any incoming bytes: nothing, a refusal, or the hello, followed by the port exactly if keys are returned |
| `Handshake.HandshakeClient.PerformHandshake` | client/handshake.py:120-217 | result, bytes sent, closed socket and the `session_keys` field for all incoming bytes, any chunks, a failing `connect` and a `sendall` that fails after any number of bytes; a result means exactly hello and confirmation were written |
| `Handshake.RunWithinIsCut` | client/handshake.py:209-217 | a run whose connection takes only so many bytes is the unlimited run cut off in the send that no longer fits, with HandshakeError |
| `Handshake.ClientCutExactly` | client/handshake.py:209-217 | success over a connection that takes only so many bytes, if and only if all 96 fit and it succeeds over one that lasts; else HandshakeError, with the keys stored if the confirmation is what did not fit |
| `Handshake.HandshakeServer.HandleHandshake` | client/handshake.py:270-351 | result and bytes sent for all incoming bytes, any chunks and a `sendall` that fails after any number of bytes; keys mean exactly hello and port were written |
| `Handshake.ServerCutExactly` | client/handshake.py:345-351 | keys over a connection that takes only so many bytes, if and only if all 76 fit and keys are returned over one that lasts |
| `Framing.ReadFrame` | client/handshake.py:219-236 | a framed message reads back whole whatever follows it |
| `Framing.ReadTruncated` | client/handshake.py:238-246 | a stream that ends inside a message fails and yields none |
| `Framing.ReadExactly` | client/handshake.py:225-236 | a read succeeds if and only if the bytes are the frame of a message of known type and size, then anything |
| `Framing.SendableExactly` | client/handshake.py:25-30 | the four message types and the payload limit |
| `Framing.ReadGotFrame` | client/handshake.py:225-236 | what was read is byte for byte the frame of the message it gave |
| `Framing.ReadRejects` | client/handshake.py:231-236 | the size limit is enforced before the data is read, the type after it |
| `Framing.ReadUnknownExactly` | client/handshake.py:231-236 | a read fails for its type if and only if the bytes start with such a frame |
| `Framing.ReadManyFrames` | client/handshake.py:219-246 | any list of messages comes back as that list, and the trailing bytes stay unread |
| `Framing.ReadManyCut` | client/handshake.py:238-246 | a stream cut anywhere gives the messages that arrived whole, then the failure |
| `Framing.ArrivedFits` | client/handshake.py:238-246 | those are the longest prefix of the list that fits in the bytes that arrived |
| `Framing.Socket.RecvExact` | client/handshake.py:238-246 | exactly the next n bytes in order for every chunking, or the way the stream ended |
| `Framing.Socket.RecvMessage` | client/handshake.py:225-236 | what a read returns and leaves depends on the bytes and not on the chunks |
| `Framing.Socket.SendMessage` | client/handshake.py:219-223 | appends exactly one frame, or the part of it the connection takes |
| `Bytes.UnpackPack` | client/handshake.py:222 | packed numbers of any width unpack to themselves |
| `Bytes.PackUnpack` | client/handshake.py:229 | every byte string is the packing of the number it unpacks to |
| `Bytes.UnpackConcat` | client/handshake.py:43 | the byte order is big-endian |
| `Bytes.LessTrichotomy` | client/crypto.py:170 | of two different keys exactly one is smaller |
| `Bytes.LessTransitive` | client/crypto.py:170 | the byte order is transitive |
| `Bytes.LessExactly` | client/crypto.py:170 | it is the lexicographic order of byte values |
| `Crypto.DirectionsMirror` | client/crypto.py:147-197 | the two derivations are opposite if and only if the public keys differ and the salts agree, and no derivation uses one key for both directions |
| `Crypto.SmallerKeyLeads` | client/crypto.py:166-197 | both keys come from one secret and salt, and the end with the lexicographically smaller public key encrypts under "vpn-key-1" |
| `Crypto.EqualKeysCollide` | client/crypto.py:170-197 | with equal public keys both ends encrypt under the second key and decrypt under another |
| `Crypto.DirectionsNeverMeet` | client/crypto.py:172-197 | no client-to-server key equals a server-to-client key, in any two sessions of a server |
| `Crypto.Encrypt` | client/crypto.py:55-69 | a ciphertext is 28 bytes longer than its plaintext |
| `Crypto.DecryptEncrypt` | client/crypto.py:71-94 | decryption inverts encryption under the same key and fails under every other |
| `Crypto.DecryptExactly` | client/crypto.py:84-94 | a byte string opens to p if and only if it is a sealing of p under that key |
| `Tunnel.StepKeepsProvenance` | client/tunnel.py:199-275 | every step of every thread, key install or stop keeps the provenance of all packets under way |
| `Tunnel.ReachableProvenance` | client/tunnel.py:420-463 | provenance holds after every schedule |
| `Tunnel.NothingInvented` | client/tunnel.py:420-463 | each packet the server writes was read from the TUN of a client of that session, each packet a client writes was read from the server's TUN, encrypted for that client's session and came under the server's address, and no empty packet is ever written |
| `Tunnel.OpenedIsOnWire` | client/tunnel.py:243 | what opens is one whole datagram somebody sent under that key: splicing and injection gain nothing |
| `Tunnel.ServerOpens` | client/tunnel.py:434-439 | a non-empty packet the server opens was read by a client of that session, and a faithful copy that opens is of a data datagram |
| `Tunnel.ClientOpens` | client/tunnel.py:240-248 | what a client opens comes from the server's TUN, was encrypted for that client's session and is never empty |
| `Tunnel.OpensAtServer` | client/tunnel.py:434-439 | delivered as sent, a datagram opens at the server if and only if a client of the session in use sent it, and to what that client encrypted |
| `Tunnel.OpensAtClient` | client/tunnel.py:240-248 | and at a client if and only if the server sent it under that client's session; a client's datagram reflected to any client, itself included, is rejected |
| `Delivery.UpTurn` | client/tunnel.py:203-218 | one turn of the client's send loop: the whole new state; a packet read is on the wire, sealed once and counted |
| `Delivery.KeepTurn` | client/tunnel.py:266-275 | one turn of the keepalive loop: an empty sealed packet, uncounted |
| `Delivery.DownTurn` | client/tunnel.py:228-253 | one turn of the client's receive loop: what opens is written and counted |
| `Delivery.DownRejects` | client/tunnel.py:237-256 | a datagram from elsewhere, that does not open or is empty leaves the client as it was |
| `Delivery.RxTurn` | client/tunnel.py:424-440 | one turn of the server's receive loop: what opens is written under the session in use and counted, and its source is where replies go |
| `Delivery.RxRejects` | client/tunnel.py:431-442 | any other datagram changes the reply address and nothing else |
| `Delivery.TxTurn` | client/tunnel.py:452-459 | one turn of the server's send loop: a packet read is on the wire, sealed under the session in use and counted |
| `Delivery.TxLoses` | client/tunnel.py:456 | without an encryptor or a client address the packet is lost |
| `Delivery.PacketArrives` | client/tunnel.py:199-440 | from wherever both are between packets, any non-empty packet of a client can reach the server's TUN, and both ends count it |
| `Delivery.ReplyArrives` | client/tunnel.py:224-459 | and any packet of the server the TUN of the client of that session |
| `Delivery.RoundTrip` | client/tunnel.py:199-463 | from a fresh start, for every client and all packets, some schedule carries one there and another back |
| `Delivery.FailuresAreCaught` | client/tunnel.py:220-275 | an exception in any read, seal, send, receive or write costs the packet in hand and nothing else |
| `Delivery.TimeoutsAreHarmless` | client/tunnel.py:206-233 | a wait that times out or an empty packet brings a thread back to its loop's top and nothing else |
| `Delivery.LoopsEndByFlag` | client/tunnel.py:203-269 | a thread ends if and only if it tests the cleared flag; no keepalive is sent after a stop |
| `Delivery.StopsCanCome` | client/tunnel.py:165-393 | a stop can come at any time, clears the flag and touches nothing else |
| `Delivery.NetworkIsFree` | client/tunnel.py:229-234 | the modelled network can inject, splice, cut, repeat and redirect without bound |
| `EndToEnd.HandshakesMakeSessions` | client/handshake.py:136-207 | handshakes the server accepted, over any schedules, make tunnel sessions between distinct public keys; the server, and each client that completed, holds exactly the keys of its session |
| `EndToEnd.WrittenByAContact` | client/tunnel.py:420-446 | from handshake to packet, half-open handshakes included: what the server writes under one handshake's keys was read from its TUN by a client whose own handshake completed with the mirrored keys |
| `EndToEnd.WrittenForAContact` | client/tunnel.py:224-253 | and back: what a client writes was read from the server's TUN and encrypted under the keys of a handshake that mirror the client's own |
| `EndToEnd.TunnelFollowsRegistry` | server/main.py:201-224 | a tunnel whose key installs are those of the handlers always encrypts and decrypts for the contacts of the handlers that set its ciphers last, with the keys they set |
| `EndToEnd.MixedCiphers` | client/tunnel.py:341-463 | with the encryptor of one session and the decryptor of another, packets of the decryptor's clients and no others open at the server, its replies open at the encryptor's clients and no others, so no client has both directions |
| `Traffic.StepKeepsBooks` | client/tunnel.py:215-218 | each load and store of a counter keeps all counters of all parties accounted for |
| `Traffic.ReachableBooks` | client/tunnel.py:434-459 | so after every schedule, client and server |
| `Traffic.DownKeepsBooks` | client/tunnel.py:250-253 | the receive thread keeps its two counters in order and never touches the other two |
| `Traffic.CountersExact` | client/tunnel.py:215-218 | between packets, bytes_sent is the plaintext total plus 28 a packet and packets_sent their number; likewise the receive counters |
| `Traffic.UncountedIsOneDatagram` | client/tunnel.py:213-217 | what a client has sent and not counted is at most the last datagram, and nothing between packets |
| `Traffic.SizesAreData` | client/tunnel.py:250-440 | without duplicates, what either end counted is the size of distinct datagrams of the other |
| `Traffic.ServerNeverOvercounts` | client/tunnel.py:440 | on a network that does not duplicate, the server never counts more than the clients have counted plus the datagram each has in hand |
| `Traffic.ClientsNeverOvercount` | client/tunnel.py:251 | and the other way: all clients together never count more than the server has counted plus the reply it has in hand |
| `Traffic.UncountedIsOneReply` | client/tunnel.py:457-459 | what the server has sent and not counted is at most the last reply |
| `Registry.StepKeepsInv` | server/main.py:201-239 | every step of every handler keeps the map, the counter and the ciphers consistent |
| `Registry.RegistryConsistent` | server/main.py:201-239 | each entry was stored by a handler that authenticated from that IP and still runs, connections counts the stores, and the map is empty once all handlers have ended |
| `Registry.EndsOnlyWhenStopped` | server/main.py:201-233 | a handler leaves its work only by a failed handshake, an exception or a stop, and with keys only by the last two |
| `Registry.HandlerServes` | server/main.py:207-224 | from wherever the others are, a handler that authenticates can be listed, counted and have both ciphers set to its keys |
| `Registry.ServesUntilStopped` | server/main.py:224-237 | a serving handler that wakes sleeps again while the server runs; after a stop it ends and its IP is taken off |
| `Registry.FailureEnds` | server/main.py:227-237 | a handler that fails ends without counting and takes its IP off |
| `Registry.ComeAndStop` | server/main.py:178-199 | a connection can come and a stop happen at any time, without touching the others |
| `Registry.RunningExactly` | server/main.py:224 | the flag is down if and only if the server was stopped |
| `Registry.ConnectionsExactly` | server/main.py:216 | connections is the number of stores of the schedule |
| `Registry.ListedExactly` | server/main.py:213-237 | a live client is listed if and only if the schedule has no store or cleanup by another handler of its IP after its own store |
| `Registry.TunnelKeys` | client/tunnel.py:341-346 | each cipher comes from a successful handshake; both come from the same one if and only if the last encryptor and the last decryptor were set by the same handler, and so it is when no install is open and none began while another was |
| `Registry.OverlappedBySchedule` | client/tunnel.py:341-346 | two installs overlap if and only if the schedule begins one while another has begun and not finished |
| `Registry.FailedHandshakeEvicts` | server/main.py:235-237 | a schedule on which a failed handshake deletes a live client's entry |
| `Registry.OverlappingInstallsMix` | client/tunnel.py:344-346 | a schedule that ends with the encryptor of one session and the decryptor of another |
| `Lifecycle.DirectionsSurviveInstall` | client/tunnel.py:97-101 | with keys installed as derived at both ends, what either end encrypts the other decrypts, if and only if the public keys differ |
| `Lifecycle.WintunAdapter.CreateAdapter` | client/wintun.py:137-161 | when a handle is opened, reused or refused, by creating or by name |
| `Lifecycle.WintunAdapter.StartSession` | client/wintun.py:163-178 | when a session is started, reused or refused |
| `Lifecycle.WintunAdapter.CloseAdapter` | client/wintun.py:180-195 | session and adapter are closed in that order, each if open |
| `Lifecycle.TunnelClient.SetSessionKeys` | client/tunnel.py:97-101 | the derived directions are installed without a swap |
| `Lifecycle.TunnelClient.CleanUp` | client/tunnel.py:277-291 | TUN and socket are closed once and forgotten, nothing else changes |
| `Lifecycle.TunnelClient.ConnectTo` | client/tunnel.py:103-156 | the whole new state and system-call trace for every combination of failures |
| `Lifecycle.TunnelClient.DisconnectNow` | client/tunnel.py:158-174 | the whole new state and system-call trace |
| `Handles.StepKeeps` | client/tunnel.py:103-174 | a connect or disconnect with any failures keeps handles balanced and ends in a resting state |
| `Handles.AlwaysAtRest` | client/tunnel.py:103-174 | whenever the lock is free the client is disconnected, connected with everything in place, or in error with nothing open, and exactly the handles it holds are open |
| `Handles.ConnectExactly` | client/tunnel.py:116-156 | a connect succeeds if and only if there are keys and no stage fails; the whole state and trace of a success, with the keys and the address given |
| `Handles.FailedConnectTrace` | client/tunnel.py:130-156 | what each failing stage had opened, and that it is closed again in order |
| `Handles.ConnectTwice` | client/tunnel.py:117-118 | connecting when connected changes nothing |
| `Handles.DisconnectExactly` | client/tunnel.py:158-174 | a disconnect closes what is open, in order, stops the workers, keeps keys and address, and is idempotent |
| `Handles.ProperCounts` | client/wintun.py:137-195 | in a proper trace each handle is opened at most once and has been closed exactly when it is not open |
| `Handles.EverythingClosedOnce` | client/tunnel.py:277-291 | outside a connection every adapter, session and socket ever opened has been closed exactly once |
| `Handles.SessionsEndFirst` | client/wintun.py:188-195 | no adapter is ever closed before the sessions started on it |
| `Handles.RunningMeansConnected` | client/tunnel.py:144-165 | as long as threads start, the workers' flag is set exactly while connected |
| `Handles.FailedConnectFlag` | client/tunnel.py:145-156 | a failed connect leaves the flag set if and only if it was set or the failure was a thread start |
| `Routes.RouteManager.EnableFullVpn` | ui/main.py:153-169 | table, fields and success, with the gateway the detection finds in the listing, for every failing add and off Windows |
| `Routes.RouteManager.DisableFullVpn` | ui/main.py:171-179 | exactly the two halves and the host's routes go |
| `Routes.EnableExactly` | ui/main.py:153-169 | table and success of an enable in every case: which rows go, when the host route is called for, and that nothing is added behind a failing add |
| `Routes.AddExactly` | ui/main.py:165-168 | an add is refused exactly for a name, a row that is there, or a failure of the system |
| `Routes.CoversRange` | ui/main.py:167-168 | an aligned row covers exactly its range of addresses |
| `Routes.ServerBypassesTunnel` | ui/main.py:162-165 | after a successful enable with a detected gateway, a server that is neither private nor local is reached through that gateway alone |
| `Routes.FoundIsLeast` | ui/main.py:192-218 | the detected gateway is that of a default row of least metric among those with a gateway, and none is found if and only if there is no such row |
| `Routes.ServerKeepsItsGateway` | ui/main.py:161-218 | when default rows alone covered the server and the listing shows them, enabling leaves it on a next hop it had if and only if no on-link default row was ahead of all those with a gateway |
| `Routes.OnLinkServerIsTunnelled` | ui/main.py:161-168 | when all default rows are on-link no host route is added, and without a more specific route the server's own packets enter the tunnel |
| `Routes.RestGoesThroughVpn` | ui/main.py:167-168 | every other address without a route more specific than a half goes to the VPN gateway alone |
| `Routes.SpecificRoutesKept` | ui/main.py:167-168 | where there is a more specific route, the winning routes are unchanged |
| `Routes.DisableUndoesEnable` | ui/main.py:153-190 | disable after any enable, also one that raised at any add, restores the table if and only if it held none of the manager's own routes; disable is idempotent |
| `Routes.SwitchingServersLeaks` | ui/main.py:158-165 | enabling for a second server and disabling leaves exactly the first host route, also when the first enable raised after adding it |
| `Gateway.DetectDefaultGateway` | ui/main.py:192-218 | the scan and sort compute the detection specified |
| `Gateway.DetectedExactly` | ui/main.py:202-218 | in the words of the lines: none exactly when the command fails or no default line has a gateway; otherwise the third word of the earliest default line of least metric, the fifth word, 9999 if it is no number |
| `Gateway.StableSortCorrect` | ui/main.py:217 | the sort orders by metric and keeps the order of equals |
| `Gateway.SortHead` | ui/main.py:217-218 | its first element is the earliest of least metric |
| `Firewall.Iptables.ExecuteAll` | server/nat.py:360-366 | all commands run in order, failures included, and success means all succeeded |
| `Firewall.RunExactly` | server/nat.py:360-386 | what each command does to the chain and its exit status, failing or not |
| `Firewall.KillSwitch.Enable` | server/nat.py:224-249 | the commands and their order, and that the flag is set exactly on success |
| `Firewall.KillSwitch.Disable` | server/nat.py:251-273 | runs its commands only when enabled |
| `Firewall.KillSwitchExact` | server/nat.py:344-358 | after enable, of the packets the old rules leave undecided exactly those pass that are marked, on loopback, UDP to the VPN port or addressed to the server |
| `Firewall.ServerRuleMustComeFirst` | server/nat.py:357-358 | the server rule behind DROP would save no packet |
| `Firewall.DnsRulesAreDead` | server/nat.py:351-353 | without the two DNS rules the same packets are dropped |
| `Firewall.BlockingVerdict` | server/nat.py:344-358 | the verdict of the switch's rules on every packet that reaches them |
| `Firewall.ForeignFirst` | server/nat.py:344-358 | a rule of somebody else decides before any rule behind it |
| `Firewall.OldRulesDecide` | server/nat.py:344-358 | the switch only appends: what the old rules accept leaves even with it on |
| `Firewall.OnThenOff` | server/nat.py:373-388 | enable then disable keeps every rule as often as before, except one server rule more, and the order when its rules were absent |
| `Firewall.FailedEnableStays` | server/nat.py:360-371 | a failing enable restores nothing: the chains are as before if and only if every command failed |
| `Firewall.NatManager.Setup` | server/nat.py:124-163 | the chains and the reported success for any failing commands and the main interface found then |
| `Firewall.NatManager.Teardown` | server/nat.py:165-181 | the chains for any failing commands and the main interface found anew; success is always reported |
| `Firewall.AfterDevExactly` | server/nat.py:192-197 | which word is the one behind the first "dev" |
| `Firewall.MainInterfaceExactly` | server/nat.py:183-203 | and eth0 exactly when the command failed or there is none |
| `Firewall.NatSetupTeardown` | server/nat.py:135-181 | where the rules were absent, setup then teardown restores the chains if and only if both find the same main interface; otherwise every rule of the setup stays |
| `Firewall.RepeatedSetups` | server/nat.py:135-157 | after any setups, whatever interfaces they found, each MASQUERADE rule they wrote occurs once or as often as before, each FORWARD rule once more for every setup that wrote it, and nothing else changed |
| `Config.Disk.LoadConfig` | server/main.py:42-72 | the field-by-field load equals the specification, error cases included |
| `Config.Disk.SaveConfig` | server/main.py:74-97 | the two files after a save |
| `Config.SaveExactly` | server/main.py:77-92 | which keys a save writes where, and when it leaves the key file alone |
| `Config.SaveThenLoad` | server/main.py:42-97 | exactly which configurations come back from save and load, over any files there before |
| `Config.LegacyKeyMoves` | server/main.py:56-62 | a private key in the JSON moves to the key file and the configuration stays the same |
| `Config.LoadPriorities` | server/main.py:49-70 | the defaults, which private key wins, and when the public key is derived |
| `Config.LoadFields` | server/main.py:49-65 | each field is the one in the file, or its default, whichever others are missing |
| `Config.LoadFailsExactly` | server/main.py:58-70 | a load fails if and only if a hexadecimal text in use is malformed or a key to derive from is not 32 bytes |
| `Config.FromDictToDict` | ui/main.py:65-103 | a server entry survives but for its latency and an empty key |
| `Config.FromDictFields` | ui/main.py:67-95 | likewise for a server entry, which fails if and only if its key is malformed |
| `Config.FromDictDefaults` | ui/main.py:67-95 | the defaults, and the handshake port derived from the port |
| `Config.InsecureWords` | ui/main.py:80-82 | a flag given as text allows insecure mode if and only if it is one of the three words up to case and surrounding blanks |
| `Config.InsecureFlag` | ui/main.py:80-95 | a boolean flag counts as it is and a missing one as false |
| `Bytes.FromHexHex` | server/main.py:84-92 | hexadecimal text of any bytes reads back |
| `Bytes.FromHexOnto` | server/main.py:58-65 | what reads is, up to case and blanks, the hexadecimal text of its result |
| `Bytes.FromHexConcat` | server/main.py:58-65 | blanks may stand between bytes |
| `Bytes.FromHexLower` | server/main.py:58-65 | case does not matter |
| `Bytes.StripBare` | server/main.py:60 | what strip leaves has no blank at either end |
| `Bytes.BlankChars` | server/main.py:60 | which characters are blanks |
| `Bytes.LowerExactly` | ui/main.py:82 | lowering maps the alphabet, leaves no capital and is idempotent |
| `Bytes.StripHex` | server/main.py:60-62 | stripping blanks does not touch such text |
| `Bytes.StripPadded` | ui/main.py:82 | blanks around a text do not matter to strip |
| `Bytes.LowerStrip` | ui/main.py:82 | stripping and lowering commute |

## Left out

- The inside of X25519, HKDF and AES-GCM: the symbolic interface stands for them. Which public keys X25519 rejects is an input, no key pair has one of them, and two encodings of one point count as two keys.
- Secrecy and replay: the repository has no replay window, and only correctness is in scope. `NothingInvented` therefore speaks of sets of packets, not of how often each was written.
- `derive_session_key`, `_sequence_number` and other code nothing calls.
- A server that times out: the accepted socket has no timeout in the source, so the concurrent machine lets the server fail only after a drop or after the client has closed.
- HandshakeProtocol.CanFinish: a finishing schedule exists from every state and all schedules are short; that the operating system eventually takes it is not stated.
- Loss of delivered bytes by a TCP reset is modelled as a drop.
- Tunnel.NothingInvented: workers that outlive the two-second join of `disconnect` and meet the sockets of a later connection are not modelled; each client connects once.
- The tests of cipher and server address in the client's loops: both are always set while its workers run (`AlwaysAtRest`).
- Where the network takes the server's replies: `_client_addr` is the source of the last datagram (`RxTurn`, `RxRejects`), and the network is free to deliver a reply anywhere.
- The worker loops and `_handle_client` as methods: they interleave at every attribute access, so `Tunnel` and `Registry` step through them as machines on values, where objects have no identity.
- Rates, durations, callbacks and printing.
- `TunnelServer.start` and `stop`, the accept loop, and the server's own clean-up: the same pattern as the client's.
- Lifecycle.TunnelClient.ConnectTo: covers the Windows path; the Linux TUN descriptor, callbacks that raise, and the time `disconnect` waits for threads are not modelled.
- Tkinter, the application controller, server ping and the latency display.
- Routes.ServerKeepsItsGateway: a server that a more specific route covered is moved to the default gateway; the lemma speaks of servers that default rows alone covered.
- Routes.RestGoesThroughVpn: a routing table keeps no row with destination bits outside its mask (`Aligned`); and a host name as server, for which `route add` fails, is not resolved.
- `ipaddress`'s private-address test and Python's `int` are inputs; `gateway.lower()` covers ASCII.
- Windows NAT and firewall commands, `setup_nat`, and the sysctl, which nothing undoes.
- Firewall.OnThenOff: commands of the disable fail only for missing rules; likewise in `NatSetupTeardown` and `RepeatedSetups`.
- iptables resolving names and matching CIDR blocks: a server rule matches the packets whose destination is that text. Of a chain with interface, subnet or connection-state matches only its contents are modelled.
- Config.Disk.LoadConfig: a JSON null in a text or port field reads as absent, and values of another JSON type are not modelled; files that are no JSON raise before anything else.
- `str.strip` and `bytes.fromhex` cover the ASCII blanks; file permissions are not modelled.
