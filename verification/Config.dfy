/** Saved settings: `ServerConfig` of server/main.py with its separate key file, and
    `ServerInfo` of ui/main.py. Absent and null JSON values are both None. */
module Config {
  import opened Bytes

  const DEFAULT_PORT := 51820
  const DEFAULT_HANDSHAKE_PORT := 51821

  /** The keys of server.json; `privateKey` only occurs in files of older versions. */
  datatype ServerJson = ServerJson(
    name: Option<string>, listenPort: Option<int>, handshakePort: Option<int>, tunName: Option<string>,
    privateKey: Option<string>, publicKey: Option<string>)

  const NO_JSON: ServerJson := ServerJson(None, None, None, None, None, None)

  datatype ServerConfig = ServerConfig(
    name: string, listenPort: int, handshakePort: int, tunName: string,
    privateKey: Option<ByteString>, publicKey: Option<ByteString>)

  /** The two files. */
  datatype Files = Files(json: Option<ServerJson>, key: Option<string>)

  function Default<T>(o: Option<T>, d: T): T {
    match o case None => d case Some(x) => x
  }

  /** Python's truth of an optional string of bytes or characters. */
  predicate Truthy<T>(o: Option<seq<T>>) { o.Some? && |o.value| > 0 }

  /** A field read with `bytes.fromhex` when it is truthy; the outer None is ValueError. */
  function HexField(o: Option<string>): Option<Option<ByteString>> {
    if !Truthy(o) then Some(None)
    else match FromHex(o.value) case None => None case Some(b) => Some(Some(b))
  }

  /** The key file, blanks around the digits ignored. */
  function KeyFile(f: Files): Option<Option<ByteString>> {
    HexField(if f.key.Some? then Some(Strip(f.key.value)) else None)
  }

  function StoredPrivate(f: Files): Option<Option<ByteString>> {
    var json := Default(f.json, NO_JSON);
    if Truthy(json.privateKey) then HexField(json.privateKey) else KeyFile(f)
  }

  /** `load`; None when one of the hex fields, or the private key, is malformed.
      `derive` is the public key of a 32-byte private key. */
  function Load(f: Files, derive: ByteString -> ByteString): Option<ServerConfig> {
    var json := Default(f.json, NO_JSON);
    match (StoredPrivate(f), HexField(json.publicKey))
    case (Some(priv), Some(pub)) =>
      if Truthy(priv) && !Truthy(pub) && |priv.value| != 32 then None
      else
        Some(ServerConfig(
          Default(json.name, "VPN Server"), Default(json.listenPort, DEFAULT_PORT),
          Default(json.handshakePort, DEFAULT_HANDSHAKE_PORT), Default(json.tunName, "VPNServer"),
          priv, if Truthy(priv) && !Truthy(pub) then Some(derive(priv.value)) else pub))
    case _ => None
  }

  /** `save`: the JSON never holds the private key, and an empty one is not written. */
  function Save(c: ServerConfig, f: Files): Files {
    Files(
      Some(ServerJson(Some(c.name), Some(c.listenPort), Some(c.handshakePort), Some(c.tunName), None,
                      if Truthy(c.publicKey) then Some(Hex(c.publicKey.value)) else None)),
      if Truthy(c.privateKey) then Some(Hex(c.privateKey.value)) else f.key)
  }

  /** The key of a JSON is there exactly if it is not empty, never the private one; the key
      file is replaced exactly if there is a key to write. */
  lemma SaveExactly(c: ServerConfig, f: Files)
    ensures var after := Save(c, f);
            after.json.Some? && after.json.value.privateKey == None &&
            (after.json.value.publicKey.Some? <==> c.publicKey.Some? && c.publicKey.value != []) &&
            (after.json.value.publicKey.Some? ==> FromHex(after.json.value.publicKey.value) == Some(c.publicKey.value)) &&
            (if c.privateKey.Some? && c.privateKey.value != []
             then after.key.Some? && FromHex(after.key.value) == Some(c.privateKey.value) && |after.key.value| == 2 * |c.privateKey.value|
             else after.key == f.key)
  {
    if Truthy(c.publicKey) {
      FromHexHex(c.publicKey.value);
    }
    if Truthy(c.privateKey) {
      FromHexHex(c.privateKey.value);
      HexHasNoBlanks(c.privateKey.value);
    }
  }

  class Disk {
    var files: Files

    constructor (files: Files)
      ensures this.files == files
    {
      this.files := files;
    }

    method LoadConfig(derive: ByteString -> ByteString) returns (r: Option<ServerConfig>)
      ensures r == Load(files, derive)
    {
      var data := Default(files.json, NO_JSON);
      var config := ServerConfig(
        Default(data.name, "VPN Server"), Default(data.listenPort, DEFAULT_PORT),
        Default(data.handshakePort, DEFAULT_HANDSHAKE_PORT), Default(data.tunName, "VPNServer"), None, None);
      if Truthy(data.privateKey) {
        var key := FromHex(data.privateKey.value);
        if key.None? {
          return None;
        }
        config := config.(privateKey := key);
      } else if files.key.Some? {
        var text := Strip(files.key.value);
        if text != "" {
          var key := FromHex(text);
          if key.None? {
            return None;
          }
          config := config.(privateKey := key);
        }
      }
      if Truthy(data.publicKey) {
        var key := FromHex(data.publicKey.value);
        if key.None? {
          return None;
        }
        config := config.(publicKey := key);
      }
      if Truthy(config.privateKey) && !Truthy(config.publicKey) {
        if |config.privateKey.value| != 32 {
          return None;
        }
        config := config.(publicKey := Some(derive(config.privateKey.value)));
      }
      return Some(config);
    }

    method SaveConfig(c: ServerConfig)
      modifies this
      ensures files == Save(c, old(files))
    {
      var json := ServerJson(Some(c.name), Some(c.listenPort), Some(c.handshakePort), Some(c.tunName), None, None);
      if Truthy(c.publicKey) {
        json := json.(publicKey := Some(Hex(c.publicKey.value)));
      }
      files := files.(json := Some(json));
      if Truthy(c.privateKey) {
        files := files.(key := Some(Hex(c.privateKey.value)));
      }
    }
  }

  lemma HexFieldHex(b: ByteString)
    ensures HexField(if b != [] then Some(Hex(b)) else None) == Some(if b != [] then Some(b) else None)
    ensures b != [] ==> HexField(Some(Strip(Hex(b)))) == Some(Some(b))
  {
    FromHexHex(b);
    HexHasNoBlanks(b);
    StripHex(b);
  }

  lemma SavedPrivate(c: ServerConfig, f: Files)
    ensures StoredPrivate(Save(c, f)) == if Truthy(c.privateKey) then Some(c.privateKey) else KeyFile(f)
  {
    if Truthy(c.privateKey) {
      HexFieldHex(c.privateKey.value);
    }
  }

  lemma SavedPublic(c: ServerConfig, f: Files)
    ensures HexField(Save(c, f).json.value.publicKey) == Some(if Truthy(c.publicKey) then c.publicKey else None)
  {
    if Truthy(c.publicKey) {
      HexFieldHex(c.publicKey.value);
    }
  }

  /** Saving and loading gives the configuration back exactly when its private key is
      non-empty or the key file already stands for it, and its public key is non-empty
      or both keys are missing. */
  lemma SaveThenLoad(c: ServerConfig, f: Files, derive: ByteString -> ByteString)
    requires forall k :: |derive(k)| == 32
    ensures Load(Save(c, f), derive) == Some(c) <==>
              (Truthy(c.privateKey) || KeyFile(f) == Some(c.privateKey)) &&
              (Truthy(c.publicKey) || (c.publicKey == None && !Truthy(c.privateKey)))
  {
    SavedPrivate(c, f);
    SavedPublic(c, f);
    var priv := StoredPrivate(Save(c, f));
    if priv.Some? && Truthy(priv.value) {
      assert Truthy(Some(derive(priv.value.value)));
    }
  }

  /** Migration: a file that still holds the private key, once loaded and saved, no
      longer does, and loads to the same configuration. */
  lemma LegacyKeyMoves(f: Files, derive: ByteString -> ByteString)
    requires forall k :: |derive(k)| == 32
    requires Load(f, derive).Some? && Truthy(Load(f, derive).value.privateKey)
    ensures var c := Load(f, derive).value;
            Load(Save(c, f), derive) == Some(c) && Save(c, f).json.value.privateKey == None
  {
    var c := Load(f, derive).value;
    assert Truthy(c.publicKey);
    SaveThenLoad(c, f, derive);
  }

  /** With no files every field has its default; a private key in the JSON wins over
      the key file; and a public key is derived exactly when the JSON has none. */
  lemma LoadPriorities(f: Files, derive: ByteString -> ByteString)
    ensures Load(Files(None, None), derive) ==
            Some(ServerConfig("VPN Server", 51820, 51821, "VPNServer", None, None))
    ensures var c := Load(f, derive);
            c.Some? && f.json.Some? && Truthy(f.json.value.privateKey) ==> c.value.privateKey == FromHex(f.json.value.privateKey.value)
    ensures var c := Load(f, derive);
            c.Some? && Truthy(c.value.privateKey) && (f.json.None? || !Truthy(f.json.value.publicKey)) ==>
              c.value.publicKey == Some(derive(c.value.privateKey.value))
  {
  }

  /** Every field of the JSON is taken as it is, whichever others are missing, and a missing
      one has its default. */
  lemma LoadFields(f: Files, derive: ByteString -> ByteString)
    requires Load(f, derive).Some?
    ensures var c := Load(f, derive).value;
            var j := if f.json.Some? then f.json.value else ServerJson(None, None, None, None, None, None);
            c.name == (if j.name.Some? then j.name.value else "VPN Server") &&
            c.listenPort == (if j.listenPort.Some? then j.listenPort.value else 51820) &&
            c.handshakePort == (if j.handshakePort.Some? then j.handshakePort.value else 51821) &&
            c.tunName == (if j.tunName.Some? then j.tunName.value else "VPNServer") &&
            (j.publicKey.Some? && FromHex(j.publicKey.value) != Some([]) ==> c.publicKey == FromHex(j.publicKey.value)) &&
            ((j.privateKey.None? || j.privateKey.value == "") && f.key.Some? && Strip(f.key.value) != "" ==>
               c.privateKey == FromHex(Strip(f.key.value)))
  {
  }

  /** A load fails exactly when a hexadecimal text in use is malformed, or a public key has
      to be derived from a private key that is not 32 bytes long. */
  lemma LoadFailsExactly(f: Files, derive: ByteString -> ByteString)
    ensures var j := if f.json.Some? then f.json.value else ServerJson(None, None, None, None, None, None);
            var text := if j.privateKey.Some? && j.privateKey.value != "" then j.privateKey.value
                        else if f.key.Some? then Strip(f.key.value) else "";
            var noPublic := j.publicKey.None? || j.publicKey.value == "" || FromHex(j.publicKey.value) == Some([]);
            Load(f, derive).None? <==>
              FromHex(text).None? || (j.publicKey.Some? && FromHex(j.publicKey.value).None?) ||
              (noPublic && |FromHex(text).value| !in {0, 32})
  {
  }

  // -------------------------------------------------------------- ServerInfo

  /** `allow_insecure` may be a JSON boolean or a string. */
  datatype Flag = Bool(b: bool) | Text(s: string)

  datatype InfoJson = InfoJson(
    name: Option<string>, host: Option<string>, port: Option<int>, handshakePort: Option<int>,
    pubkey: Option<string>, region: Option<string>, allowInsecure: Option<Flag>)

  datatype ServerInfo = ServerInfo(
    name: string, host: string, port: int, handshakePort: int, pubkey: Option<ByteString>,
    region: string, allowInsecure: bool, latency: Option<real>)

  predicate Allows(flag: Option<Flag>) {
    match flag
    case None => false
    case Some(Bool(b)) => b
    case Some(Text(s)) => Lower(Strip(s)) in ["1", "true", "yes"]
  }

  /** `from_dict`; without a handshake port it is the next port up. */
  function FromDict(d: InfoJson): Option<ServerInfo> {
    var port := Default(d.port, DEFAULT_PORT);
    match HexField(d.pubkey)
    case None => None
    case Some(key) =>
      Some(ServerInfo(Default(d.name, "Unknown"), Default(d.host, "127.0.0.1"), port, Default(d.handshakePort, port + 1),
                      key, Default(d.region, "default"), Allows(d.allowInsecure), None))
  }

  function ToDict(s: ServerInfo): InfoJson {
    InfoJson(Some(s.name), Some(s.host), Some(s.port), Some(s.handshakePort),
             if Truthy(s.pubkey) then Some(Hex(s.pubkey.value)) else None, Some(s.region), Some(Bool(s.allowInsecure)))
  }

  /** The round trip keeps everything but the latency and an empty key. */
  lemma FromDictToDict(s: ServerInfo)
    ensures FromDict(ToDict(s)) == Some(s.(latency := None, pubkey := if Truthy(s.pubkey) then s.pubkey else None))
    ensures ToDict(s).pubkey.Some? <==> Truthy(s.pubkey)
  {
    if Truthy(s.pubkey) {
      HexFieldHex(s.pubkey.value);
    }
  }

  /** An entry fails exactly for a malformed key, and otherwise takes every field it has. */
  lemma FromDictFields(d: InfoJson)
    ensures FromDict(d).None? <==> d.pubkey.Some? && FromHex(d.pubkey.value).None?
    ensures FromDict(d).Some? ==>
              var s := FromDict(d).value;
              s.name == (if d.name.Some? then d.name.value else "Unknown") &&
              s.host == (if d.host.Some? then d.host.value else "127.0.0.1") &&
              s.port == (if d.port.Some? then d.port.value else 51820) &&
              (d.handshakePort.Some? ==> s.handshakePort == d.handshakePort.value) &&
              s.region == (if d.region.Some? then d.region.value else "default") && s.latency == None &&
              s.pubkey == (if d.pubkey.Some? && d.pubkey.value != "" then FromHex(d.pubkey.value) else None)
  {
  }

  /** An empty entry has every default; without a handshake port it is the next port up. */
  lemma FromDictDefaults(d: InfoJson)
    ensures FromDict(InfoJson(None, None, None, None, None, None, None)) ==
            Some(ServerInfo("Unknown", "127.0.0.1", 51820, 51821, None, "default", false, None))
    ensures FromDict(d).Some? && d.handshakePort.None? ==>
              FromDict(d).value.handshakePort == FromDict(d).value.port + 1
  {
  }

  /** A flag given as text allows insecure mode exactly if it is one of the three words
      up to case and up to blanks around it. */
  lemma InsecureWords(d: InfoJson, text: string)
    requires FromDict(d).Some? && d.allowInsecure == Some(Text(text))
    ensures FromDict(d).value.allowInsecure <==>
              exists before, word, behind :: Blank(before) && Blank(behind) && text == before + word + behind &&
                Lower(word) in ["1", "true", "yes"]
  {
    var words := ["1", "true", "yes"];
    if FromDict(d).value.allowInsecure {
      var before, behind := StripParts(text);
      assert Lower(Strip(text)) in words;
    }
    if before, word, behind :| Blank(before) && Blank(behind) && text == before + word + behind && Lower(word) in words {
      StripPadded(before, word, behind);
      LowerStrip(word);
      assert forall w :: w in words ==> Strip(w) == w;
    }
  }

  lemma {:induction false} StripParts(t: string) returns (before: string, behind: string)
    ensures Blank(before) && Blank(behind) && t == before + Strip(t) + behind
  {
    before, behind := "", "";
    if t == "" {
    } else if IsSpace(t[0]) {
      before, behind := StripParts(t[1..]);
      before := [t[0]] + before;
    } else if IsSpace(t[|t| - 1]) {
      before, behind := StripParts(t[..|t| - 1]);
      behind := behind + [t[|t| - 1]];
    }
  }

  /** A boolean flag counts as it is, and a missing one as false. */
  lemma InsecureFlag(d: InfoJson)
    requires FromDict(d).Some? && (d.allowInsecure.None? || d.allowInsecure.value.Bool?)
    ensures FromDict(d).value.allowInsecure <==> d.allowInsecure == Some(Bool(true))
  {
  }
}
