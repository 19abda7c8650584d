/** WireGuard key files inside one generation (src/shuttle_gate/keys.py). */
module KeyFiles {
  import opened Wrappers
  import opened StateDisk

  const PrivateKey := "private.key"
  const PublicKey := "public.key"
  const PresharedKey := "preshared.key"
  const PhoneConfig := "phone.conf"
  const Fingerprint := "fingerprint.json"

  function ServerPath(file: string): string {
    "server/" + file
  }

  const PeersRoot := "peers/"

  function PeerDirectory(name: string): string {
    PeersRoot + name + "/"
  }

  function PeerPath(name: string, file: string): string {
    PeerDirectory(name) + file
  }

  predicate StartsWith(text: string, prefix: string) {
    prefix <= text
  }

  /** A name with no separator in it, as every declared peer has. */
  predicate PlainName(name: string) {
    name != "" && '/' !in name
  }

  /** The text before the first separator. */
  function Upto(text: string): string {
    if text == "" || text[0] == '/' then "" else [text[0]] + Upto(text[1..])
  }

  lemma {:induction false} UptoSeparator(name: string, text: string)
    requires '/' !in name && StartsWith(text, name + "/")
    ensures Upto(text) == name
    decreases |name|
  {
    assert text[|name|] == '/';
    if name != "" {
      assert text[0] == name[0] && name[0] in name;
      assert name[1..] + "/" <= text[1..];
      UptoSeparator(name[1..], text[1..]);
    }
  }

  /** The child of `peers` that a path belongs to. */
  function Child(path: string): string
    requires StartsWith(path, PeersRoot)
  {
    Upto(path[|PeersRoot|..])
  }

  lemma {:induction false} UptoSplits(text: string)
    ensures text == Upto(text) || StartsWith(text, Upto(text) + "/")
    decreases |text|
  {
    if text != "" && text[0] != '/' {
      UptoSplits(text[1..]);
      assert text == [text[0]] + text[1..];
    }
  }

  /** A path below `peers` is a child itself, or below one. */
  lemma PathOfChild(path: string)
    requires StartsWith(path, PeersRoot)
    ensures path == PeersRoot + Child(path) || StartsWith(path, PeerDirectory(Child(path)))
  {
    var rest := path[|PeersRoot|..];
    assert path == PeersRoot + rest;
    UptoSplits(rest);
    if StartsWith(rest, Child(path) + "/") {
      assert PeerDirectory(Child(path)) == PeersRoot + (Child(path) + "/");
    }
  }

  lemma ChildOfPeerPath(name: string, path: string)
    requires '/' !in name && StartsWith(path, PeerDirectory(name))
    ensures StartsWith(path, PeersRoot) && Child(path) == name
    ensures path != PeersRoot + name
  {
    var r := |PeersRoot|;
    assert PeerDirectory(name)[r..] == name + "/" && PeerDirectory(name)[..r] == PeersRoot;
    assert path[..|PeerDirectory(name)|] == PeerDirectory(name);
    assert path[..r] == PeersRoot;
    assert |path| > |PeersRoot + name|;
    assert name + "/" <= path[r..];
    UptoSeparator(name, path[r..]);
  }

  /** A path is below one peer's directory only. */
  lemma SameDirectory(m: string, n: string, path: string)
    requires PlainName(m) && PlainName(n)
    requires StartsWith(path, PeerDirectory(m)) && StartsWith(path, PeerDirectory(n))
    ensures m == n
  {
    ChildOfPeerPath(m, path);
    ChildOfPeerPath(n, path);
  }

  lemma ServerIsNoPeer(name: string, file: string)
    ensures !StartsWith(ServerPath(file), PeerDirectory(name))
  {
    assert ServerPath(file)[0] == 's' && PeerDirectory(name)[0] == 'p';
  }

  // ------------------------------------------------------------------ reading

  predicate IsBase64(c: char) {
    ('A' <= c <= 'Z') || ('a' <= c <= 'z') || ('0' <= c <= '9') || c == '+' || c == '/'
  }

  /** Base64 text of exactly 32 bytes (line 57). */
  predicate ValidKey(key: string) {
    |key| == 44 && key[43] == '=' && forall i :: 0 <= i < 43 ==> IsBase64(key[i])
  }

  /** What `strip` takes off an ASCII text. */
  predicate IsSpace(c: char) {
    '\t' <= c <= '\r' || '\U{1c}' <= c <= ' '
  }

  function StripLeft(text: string): string {
    if text != "" && IsSpace(text[0]) then StripLeft(text[1..]) else text
  }

  function StripRight(text: string): string {
    if text != "" && IsSpace(text[|text| - 1]) then StripRight(text[..|text| - 1]) else text
  }

  function Strip(text: string): string {
    StripRight(StripLeft(text))
  }

  /** How keys are written: one line. */
  function Line(key: string): string {
    key + "\n"
  }

  lemma KeyOfLine(key: string)
    requires ValidKey(key)
    ensures Strip(Line(key)) == key
  {
    assert IsBase64(key[0]);
    assert StripLeft(Line(key)) == Line(key);
    assert Line(key)[..|Line(key)| - 1] == key;
    assert StripRight(key) == key;
  }

  predicate AllSpace(text: string) {
    forall i :: 0 <= i < |text| ==> IsSpace(text[i])
  }

  lemma {:induction false} StripLeftMeans(text: string) returns (left: string)
    ensures text == left + StripLeft(text) && AllSpace(left)
    ensures StripLeft(text) != "" ==> !IsSpace(StripLeft(text)[0])
    decreases |text|
  {
    left := "";
    if text != "" && IsSpace(text[0]) {
      var more := StripLeftMeans(text[1..]);
      left := [text[0]] + more;
      assert text == [text[0]] + text[1..];
    }
  }

  lemma {:induction false} StripRightMeans(text: string) returns (right: string)
    ensures text == StripRight(text) + right && AllSpace(right)
    ensures StripRight(text) != "" ==> !IsSpace(StripRight(text)[|StripRight(text)| - 1])
    decreases |text|
  {
    right := "";
    if text != "" && IsSpace(text[|text| - 1]) {
      var last := |text| - 1;
      var more := StripRightMeans(text[..last]);
      right := more + [text[last]];
      assert text == text[..last] + [text[last]];
    }
  }

  lemma {:induction false} StripLeftOf(left: string, text: string)
    requires AllSpace(left) && (text == "" || !IsSpace(text[0]))
    ensures StripLeft(left + text) == text
    decreases |left|
  {
    if left == "" {
      assert left + text == text;
    } else {
      assert (left + text)[1..] == left[1..] + text;
      StripLeftOf(left[1..], text);
    }
  }

  lemma {:induction false} StripRightOf(text: string, right: string)
    requires AllSpace(right) && (text == "" || !IsSpace(text[|text| - 1]))
    ensures StripRight(text + right) == text
    decreases |right|
  {
    if right == "" {
      assert text + right == text;
    } else {
      var last := |right| - 1;
      assert (text + right)[..|text| + last] == text + right[..last];
      StripRightOf(text, right[..last]);
    }
  }

  predicate Exists(t: Tree, path: string) {
    Data(path) in t
  }

  function Text(t: Tree, path: string): Option<string> {
    if Data(path) in t && t[Data(path)].Blob? then Some(t[Data(path)].bytes) else None
  }

  /** A stored key, if the file is there and holds a valid one. */
  function ReadKey(t: Tree, path: string): Option<string> {
    var text := Text(t, path);
    if text.Some? && ValidKey(Strip(text.value)) then Some(Strip(text.value)) else None
  }

  /** One key on a line: 43 digits and the padding, with nothing but spaces around. */
  ghost predicate HoldsKey(bytes: string, key: string) {
    && |key| == 44 && key[43] == '='
    && (forall i :: 0 <= i < 43 ==>
          'A' <= key[i] <= 'Z' || 'a' <= key[i] <= 'z' || '0' <= key[i] <= '9' || key[i] == '+' || key[i] == '/')
    && exists left, right :: bytes == left + key + right && AllSpace(left) && AllSpace(right)
  }

  /** A key is read exactly from a file that holds one. */
  lemma {:induction false} ReadKeyMeans(t: Tree, path: string, key: string)
    ensures ReadKey(t, path) == Some(key) <==>
      Data(path) in t && t[Data(path)].Blob? && HoldsKey(t[Data(path)].bytes, key)
  {
    if Text(t, path).Some? {
      var bytes := Text(t, path).value;
      var left := StripLeftMeans(bytes);
      var right := StripRightMeans(StripLeft(bytes));
      if ReadKey(t, path) == Some(key) {
        assert bytes == left + key + right;
        assert HoldsKey(bytes, key);
      }
      if HoldsKey(bytes, key) {
        StripOfKey(bytes, key);
      }
    }
  }

  lemma StripOfKey(bytes: string, key: string)
    requires HoldsKey(bytes, key)
    ensures Strip(bytes) == key && ValidKey(key)
  {
    var left, right :| bytes == left + key + right && AllSpace(left) && AllSpace(right);
    assert IsBase64(key[0]);
    assert left + key + right == left + (key + right);
    StripLeftOf(left, key + right);
    StripRightOf(key, right);
  }

  datatype Status = Complete | Partial | Missing

  function ServerStatus(t: Tree): Status {
    var first, second := Exists(t, ServerPath(PrivateKey)), Exists(t, ServerPath(PublicKey));
    if first && second then Complete else if first || second then Partial else Missing
  }

  function PeerStatus(t: Tree, name: string): Status {
    var first, second, third :=
      Exists(t, PeerPath(name, PrivateKey)), Exists(t, PeerPath(name, PublicKey)), Exists(t, PeerPath(name, PresharedKey));
    if first && second && third then Complete else if first || second || third then Partial else Missing
  }

  datatype KeyPair = KeyPair(privateKey: string, publicKey: string)

  datatype PeerSecrets = PeerSecrets(pair: KeyPair, preshared: string)

  /** `_load_server_keys` (line 179); None when it raises. */
  function LoadServer(t: Tree): Option<KeyPair> {
    var first, second := ReadKey(t, ServerPath(PrivateKey)), ReadKey(t, ServerPath(PublicKey));
    if first.Some? && second.Some? then Some(KeyPair(first.value, second.value)) else None
  }

  /** `_load_peer_keys` (line 199) */
  function LoadPeer(t: Tree, name: string): Option<PeerSecrets> {
    var first, second, third :=
      ReadKey(t, PeerPath(name, PrivateKey)), ReadKey(t, PeerPath(name, PublicKey)), ReadKey(t, PeerPath(name, PresharedKey));
    if first.Some? && second.Some? && third.Some?
    then Some(PeerSecrets(KeyPair(first.value, second.value), third.value))
    else None
  }

  /** Keys load exactly when every file of them is there and holds one. */
  lemma LoadsMean(t: Tree, name: string, pair: KeyPair, keys: PeerSecrets)
    ensures LoadServer(t) == Some(pair) <==>
      ReadKey(t, "server/private.key") == Some(pair.privateKey) && ReadKey(t, "server/public.key") == Some(pair.publicKey)
    ensures LoadPeer(t, name) == Some(keys) <==>
      var directory := "peers/" + name + "/";
      && ReadKey(t, directory + "private.key") == Some(keys.pair.privateKey)
      && ReadKey(t, directory + "public.key") == Some(keys.pair.publicKey)
      && ReadKey(t, directory + "preshared.key") == Some(keys.preshared)
  {
    hide ReadKey;
    assert "server/" + "private.key" == "server/private.key" && "server/" + "public.key" == "server/public.key";
  }

  // ---------------------------------------------------------- configurations

  /** The declared peers and how their phone configurations come out: `phone` and
    `fingerprint` stand for render.py, a function of configuration and keys. */
  datatype KeyConfig = KeyConfig(
    peers: seq<string>,
    phone: (string, string, string, string) -> string,
    fingerprint: (string, string, string, string) -> string)

  /** `_phone_artifacts` (line 233): the texts of phone.conf and fingerprint.json. */
  function Artifacts(c: KeyConfig, t: Tree, name: string, server: KeyPair): Option<(string, string)> {
    var keys := LoadPeer(t, name);
    if keys.None? then None
    else
      var (pair, preshared) := (keys.value.pair, keys.value.preshared);
      Some((c.phone(name, server.publicKey, pair.privateKey, preshared),
            c.fingerprint(name, server.publicKey, pair.publicKey, preshared)))
  }

  predicate PhoneIsCurrent(c: KeyConfig, t: Tree, name: string) {
    && LoadServer(t).Some?
    && Artifacts(c, t, name, LoadServer(t).value).Some?
    && Text(t, PeerPath(name, PhoneConfig)) == Some(Artifacts(c, t, name, LoadServer(t).value).value.0)
    && Text(t, PeerPath(name, Fingerprint)) == Some(Artifacts(c, t, name, LoadServer(t).value).value.1)
  }

  /** `_validate_phone_snapshot` (line 349), for the selected peers. */
  predicate ValidPhones(c: KeyConfig, t: Tree, selected: seq<string>) {
    LoadServer(t).Some? && forall i :: 0 <= i < |selected| ==> PhoneIsCurrent(c, t, selected[i])
  }

  /** `_validate_available_keys` (line 437) */
  predicate ValidAvailable(c: KeyConfig, t: Tree) {
    && LoadServer(t).Some?
    && forall i :: 0 <= i < |c.peers| ==>
         PeerStatus(t, c.peers[i]) == Missing
         || (PeerStatus(t, c.peers[i]) == Complete && LoadPeer(t, c.peers[i]).Some?)
  }
}
