/** client/crypto.py over symbolic cryptography.

    A private key is named by the public key it belongs to, so a key pair is one
    32-byte string. The shared secret of section 6.1 of RFC 7748 is the unordered
    pair of the two names, HKDF (section 2 of RFC 5869) is a term, and a byte of
    AES-GCM output (sections 5.1 and 5.2 of RFC 5116) remembers what it seals. */
module Crypto {
  import opened Bytes

  const NONCE_SIZE := 12
  const TAG_SIZE := 16

  datatype Key = Hkdf(secret: set<ByteString>, salt: ByteString, info: string)

  datatype SessionKeys = SessionKeys(encryptKey: Key, decryptKey: Key)

  /** X25519: the pair of key names, whichever side computes it. */
  function Exchange(own: ByteString, peer: ByteString): set<ByteString> {
    {own, peer}
  }

  function DeriveSessionKeys(own: ByteString, peer: ByteString, salt: ByteString): SessionKeys {
    var secret := Exchange(own, peer);
    var key1 := Hkdf(secret, salt, "vpn-key-1");
    var key2 := Hkdf(secret, salt, "vpn-key-2");
    if Less(own, peer) then SessionKeys(key1, key2) else SessionKeys(key2, key1)
  }

  /** The end with the smaller public key encrypts under "vpn-key-1", the other under
      "vpn-key-2"; both keys come from the one shared secret and the salt. */
  lemma SmallerKeyLeads(own: ByteString, peer: ByteString, salt: ByteString)
    ensures var k := DeriveSessionKeys(own, peer, salt);
            k.encryptKey.secret == k.decryptKey.secret == {own, peer} && k.encryptKey.salt == k.decryptKey.salt == salt &&
            (own != peer ==> (k.encryptKey.info == "vpn-key-1" <==>
              exists n :: 0 <= n <= |own| && n < |peer| && own[..n] == peer[..n] && (n == |own| || own[n] < peer[n]))) &&
            (k.encryptKey.info, k.decryptKey.info) in {("vpn-key-1", "vpn-key-2"), ("vpn-key-2", "vpn-key-1")}
  {
    LessExactly(own, peer);
  }

  /** What one end encrypts the other end decrypts, in both directions. */
  predicate Mirror(a: SessionKeys, b: SessionKeys) {
    a.encryptKey == b.decryptKey && a.decryptKey == b.encryptKey
  }

  /** The two ends agree on opposite directions exactly when their public keys
      differ and they used the same salt. */
  lemma DirectionsMirror(a: ByteString, b: ByteString, saltA: ByteString, saltB: ByteString)
    ensures Mirror(DeriveSessionKeys(a, b, saltA), DeriveSessionKeys(b, a, saltB)) <==> a != b && saltA == saltB
    ensures DeriveSessionKeys(a, b, saltA).encryptKey != DeriveSessionKeys(a, b, saltA).decryptKey
  {
    LessTrichotomy(a, b);
    assert Exchange(a, b) == Exchange(b, a);
  }

  /** Equal public keys: both ends encrypt under the second key, so what one end
      seals the other end can never open. */
  lemma EqualKeysCollide(a: ByteString, salt: ByteString)
    ensures var k := DeriveSessionKeys(a, a, salt);
            k.encryptKey.info == "vpn-key-2" && k.encryptKey != k.decryptKey
  {
    LessTrichotomy(a, a);
  }

  /** Client-to-server and server-to-client keys never coincide, across any two
      sessions of one server, even when a client key or a salt repeats. */
  lemma DirectionsNeverMeet(server: ByteString, c: ByteString, d: ByteString, saltC: ByteString, saltD: ByteString)
    requires c != server && d != server
    ensures DeriveSessionKeys(c, server, saltC).encryptKey != DeriveSessionKeys(server, d, saltD).encryptKey
  {
    LessTrichotomy(c, server);
    if Exchange(c, server) == Exchange(server, d) {
      assert c in Exchange(server, d);
    }
  }

  /** Where a byte came from: written in the clear, or byte `at` of the
      ciphertext-with-tag of `plain` under `key` and `nonce`. */
  datatype Origin = Clear | Sealed(key: Key, nonce: ByteString, plain: ByteString, at: nat)
  datatype Cell = Cell(value: Byte, origin: Origin)
  type Wire = seq<Cell>

  function Plain(s: ByteString): (w: Wire)
    ensures |w| == |s|
  {
    seq(|s|, i requires 0 <= i < |s| => Cell(s[i], Clear))
  }

  function Values(w: Wire): (s: ByteString)
    ensures |s| == |w|
  {
    seq(|w|, i requires 0 <= i < |w| => w[i].value)
  }

  lemma ValuesPlain(s: ByteString)
    ensures Values(Plain(s)) == s
  {
  }

  lemma ValuesConcat(a: Wire, b: Wire)
    ensures Values(a + b) == Values(a) + Values(b)
  {
  }

  /** The bytes AES-GCM outputs are inputs of the model: any `output` of the right length. */
  predicate SealInputs(nonce: ByteString, plain: ByteString, output: ByteString) {
    |nonce| == NONCE_SIZE && |output| == |plain| + TAG_SIZE
  }

  function Encrypt(key: Key, nonce: ByteString, plain: ByteString, output: ByteString): (w: Wire)
    requires SealInputs(nonce, plain, output)
    ensures |w| == |plain| + NONCE_SIZE + TAG_SIZE
  {
    Plain(nonce) + seq(|output|, i requires 0 <= i < |output| => Cell(output[i], Sealed(key, nonce, plain, i)))
  }

  /** `CryptoManager.decrypt`; None is its ValueError. */
  function Decrypt(key: Key, data: Wire): Option<ByteString> {
    if |data| < NONCE_SIZE + TAG_SIZE then None
    else
      var nonce := Values(data[..NONCE_SIZE]);
      var body := data[NONCE_SIZE..];
      if !body[0].origin.Sealed? then None
      else
        var plain := body[0].origin.plain;
        if |body| == |plain| + TAG_SIZE && forall i :: 0 <= i < |body| ==> body[i].origin == Sealed(key, nonce, plain, i)
        then Some(plain)
        else None
  }

  /** Decryption inverts encryption under the same key and under no other. */
  lemma DecryptEncrypt(key: Key, other: Key, nonce: ByteString, plain: ByteString, output: ByteString)
    requires SealInputs(nonce, plain, output)
    ensures Decrypt(other, Encrypt(key, nonce, plain, output)) == if other == key then Some(plain) else None
  {
    var w := Encrypt(key, nonce, plain, output);
    assert w[..NONCE_SIZE] == Plain(nonce);
    ValuesPlain(nonce);
    var body := w[NONCE_SIZE..];
    assert |body| == |plain| + TAG_SIZE;
    assert forall i :: 0 <= i < |body| ==> body[i].origin == Sealed(key, nonce, plain, i);
    assert body[0].origin == Sealed(key, nonce, plain, 0);
  }

  /** What opens to `p` is, past its nonce, exactly the sealing of `p` under this key. */
  lemma DecryptExactly(key: Key, w: Wire, p: ByteString)
    ensures Decrypt(key, w) == Some(p) <==>
              |w| == |p| + NONCE_SIZE + TAG_SIZE &&
              w[NONCE_SIZE..] == Encrypt(key, Values(w[..NONCE_SIZE]), p, Values(w[NONCE_SIZE..]))[NONCE_SIZE..]
  {
    if |w| == |p| + NONCE_SIZE + TAG_SIZE {
      var nonce, body := Values(w[..NONCE_SIZE]), w[NONCE_SIZE..];
      var sealed := Encrypt(key, nonce, p, Values(body))[NONCE_SIZE..];
      assert forall i :: 0 <= i < |body| ==> sealed[i] == Cell(body[i].value, Sealed(key, nonce, p, i));
      if Decrypt(key, w) == Some(p) {
        assert body == sealed;
      }
      if body == sealed {
        assert body[0].origin == Sealed(key, nonce, p, 0);
      }
    }
  }
}
