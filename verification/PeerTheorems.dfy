/** What the key mutations keep, call by call and over every published history. */
module PeerTheorems {
  import opened Wrappers
  import opened TextOrder
  import opened StateDisk
  import opened StateProtocol
  import opened StateInvariant
  import opened StateTheorems
  import opened KeyFiles
  import opened PeerKeys

  /** The calls that mutate keys, with all they depend on. */
  datatype Call =
    | Generating(config: KeyConfig, peer: Option<string>, draw: Draw)
    | Regenerating(config: KeyConfig, name: string)
    | RotatingPeer(config: KeyConfig, name: string, draw: Draw, op: OpId)
    | RotatingServer(config: KeyConfig, draw: Draw, op: OpId)
    | Pruning(config: KeyConfig, listing: Tree -> Directory)

  /** `_selected_peers` (line 161): the peers a call selects; None when the name is not
    declared. */
  function Selected(call: Call): Option<seq<string>> {
    match call
    case Generating(c, peer, _) =>
      if peer.None? then Some(c.peers) else if peer.value in c.peers then Some([peer.value]) else None
    case Regenerating(c, name) => if name in c.peers then Some([name]) else None
    case RotatingPeer(c, name, _, _) => if name in c.peers then Some([name]) else None
    case RotatingServer(c, _, _) => Some(c.peers)
    case Pruning(_, _) => Some([])
  }

  function WorkOf(call: Call, t: Tree): Work {
    match call
    case Generating(c, _, draw) =>
      if Selected(call).Some? then GenerateMissing(c, t, draw, Selected(call).value) else Raise(Begin(t))
    case Regenerating(c, name) => RenderPhones(c, Begin(t), [name])
    case RotatingPeer(c, name, draw, _) => RotatePeer(c, t, draw, name)
    case RotatingServer(c, draw, _) => RotateServer(c, t, draw)
    case Pruning(c, listing) => PruneChildren(c, Begin(t), listing(t).children, listing(t).files)
  }

  predicate Validates(call: Call, t: Tree) {
    if call.Pruning? then ValidAvailable(call.config, t)
    else Selected(call).Some? && ValidPhones(call.config, t, Selected(call).value)
  }

  /** A list of names as one value; empty exactly for the empty list. */
  function Joined(names: seq<string>): Value {
    if names == [] then "" else names[0] + "," + Joined(names[1..])
  }

  function ResultOf(call: Call, w: Work): Value {
    match call
    case Generating(_, _, _) => Joined(w.names)
    case Pruning(_, _) => Joined(SortedSet(w.names))
    case _ => ""
  }

  function OperationOf(call: Call): Option<Operation> {
    match call
    case RotatingPeer(_, name, _, op) => Some(Operation(op, "keys.rotate-peer." + name, v => v == ""))
    case RotatingServer(_, _, op) => Some(Operation(op, "keys.rotate-server", v => v == ""))
    case _ => None
  }

  function RunOf(call: Call, t: Tree): Execution {
    var w := WorkOf(call, t);
    Execution(w.writes, if w.ok then Some(ResultOf(call, w)) else None)
  }

  /** The `mutate_state` call; None when the call raises before it. */
  function RequestOf(call: Call): Option<Request> {
    if Selected(call).None? then None
    else Some(Request(
      t => RunOf(call, t),
      t => Validates(call, t),
      v => call.Pruning? ==> v != "",
      OperationOf(call)))
  }

  /** A listing of `peers` in this tree; it can show empty directories as well. */
  ghost predicate Lists(peers: Directory, t: Tree) {
    && (forall child :: child in peers.children ==> '/' !in child)
    && (forall path :: Exists(t, path) && StartsWith(path, PeersRoot) ==> Child(path) in peers.children)
    && (forall child :: ListsBelow(peers.files(child), t, child))
  }

  ghost predicate ListsBelow(files: seq<string>, t: Tree, child: string) {
    forall path :: path in files <==> Exists(t, path) && StartsWith(path, PeerDirectory(child))
  }

  ghost predicate WellFormedCall(call: Call) {
    && (forall i :: 0 <= i < |call.config.peers| ==> PlainName(call.config.peers[i]))
    && (call.Pruning? ==> forall t :: Lists(call.listing(t), t))
  }

  /** The peers a call is for: the one it names, or else all that are declared. */
  predicate Concerns(call: Call, name: string) {
    match call
    case Generating(c, peer, _) => if peer.Some? then name == peer.value else name in c.peers
    case Regenerating(_, one) => name == one
    case RotatingPeer(_, one, _, _) => name == one
    case RotatingServer(c, _, _) => name in c.peers
    case Pruning(_, _) => false
  }

  /** The peers whose files a call may change: those it is for, or for pruning those its
    configuration does not declare. */
  predicate Touches(call: Call, name: string) {
    if call.Pruning? then name !in call.config.peers else Concerns(call, name)
  }

  /** A call goes ahead unless it names a peer that is not declared, and then selects
    exactly the peers it is for. */
  lemma {:induction false} SelectedIffConcerned(call: Call)
    ensures RequestOf(call).None? <==>
      exists name :: name !in call.config.peers && Concerns(call, name)
    ensures RequestOf(call).Some? ==> Selected(call).Some? && forall name :: name in Selected(call).value <==> Concerns(call, name)
  {
    if call.Generating? && call.peer.Some? {
      assert Concerns(call, call.peer.value);
    }
    if call.Regenerating? || call.RotatingPeer? {
      assert Concerns(call, call.name);
    }
  }

  /** An operation ID reused for another rotation is seen to be reused: kinds are equal
    exactly for rotations of the same keys. Only rotations have operations, and each can
    read what it records. */
  lemma {:induction false} KindsTellCallsApart(a: Call, b: Call, w: Work)
    ensures OperationOf(a).Some? ==> OperationOf(a).value.decodes(ResultOf(a, w))
    ensures OperationOf(a).Some? <==> a.RotatingPeer? || a.RotatingServer?
    ensures OperationOf(a).Some? ==> OperationOf(a).value.id == a.op
    ensures a.RotatingPeer? ==> OperationOf(a).value.kind == "keys.rotate-peer." + a.name
    ensures a.RotatingServer? ==> OperationOf(a).value.kind == "keys.rotate-server"
    ensures OperationOf(a).Some? && OperationOf(b).Some? ==>
      (OperationOf(a).value.kind == OperationOf(b).value.kind <==>
        if a.RotatingPeer? then b.RotatingPeer? && b.name == a.name else b.RotatingServer?)
  {
    var peer, server := "keys.rotate-peer.", "keys.rotate-server";
    if a.RotatingPeer? {
      assert (peer + a.name)[12] == 'p' && (peer + a.name)[|peer|..] == a.name;
    }
    if b.RotatingPeer? {
      assert (peer + b.name)[12] == 'p' && (peer + b.name)[|peer|..] == b.name;
    }
    assert server[12] == 's';
  }

  // -------------------------------------------------------------- frames, step by step

  /** The recorded writes are what happened to the tree. */
  predicate Honest(base: Tree, w: Work) {
    w.tree == ApplyAll(w.writes, base)
  }

  predicate Kept(before: Tree, after: Tree, path: string) {
    && (Data(path) in after <==> Data(path) in before)
    && (Data(path) in before ==> after[Data(path)] == before[Data(path)])
  }

  lemma StoreFrame(base: Tree, w: Work, path: string, bytes: string, other: string)
    requires Honest(base, w)
    ensures Honest(base, Store(w, path, bytes))
    ensures other != path ==> Kept(w.tree, Store(w, path, bytes).tree, other)
  {
    ApplyMore(w.writes, Put(path, bytes), base);
  }

  lemma RemoveFrame(base: Tree, w: Work, path: string, other: string)
    requires Honest(base, w)
    ensures Honest(base, Remove(w, path))
    ensures other != path ==> Kept(w.tree, Remove(w, path).tree, other)
  {
    ApplyMore(w.writes, Delete(path), base);
  }

  lemma MissingServerFrame(base: Tree, w: Work, draw: Draw, path: string)
    requires Honest(base, w)
    ensures Honest(base, MissingServer(w, draw))
    ensures Exists(w.tree, path) || path !in {ServerPath(PrivateKey), ServerPath(PublicKey)} ==>
      Kept(w.tree, MissingServer(w, draw).tree, path)
  {
    hide Honest, Store, DrawnPair;
    if ServerStatus(w.tree) == Missing && DrawnPair(draw, 0).Some? {
      var pair := DrawnPair(draw, 0).value;
      StoreFrame(base, w, ServerPath(PrivateKey), Line(pair.privateKey), path);
      var first := Store(w, ServerPath(PrivateKey), Line(pair.privateKey));
      StoreFrame(base, first, ServerPath(PublicKey), Line(pair.publicKey), path);
    }
    HonestIsAboutFiles(base, w);
    hide Exists;
  }

  /** Raising and noting a name touch no file. */
  lemma HonestIsAboutFiles(base: Tree, w: Work)
    ensures Honest(base, Raise(w)) == Honest(base, w)
    ensures forall v: Work, name :: Honest(base, Note(v, name)) == Honest(base, v)
  {
  }

  lemma MissingPeerFrame(base: Tree, w: Work, draw: Draw, i: nat, name: string, path: string)
    requires Honest(base, w)
    ensures Honest(base, MissingPeer(w, draw, i, name))
    ensures Exists(w.tree, path) || !StartsWith(path, PeerDirectory(name)) ==>
      Kept(w.tree, MissingPeer(w, draw, i, name).tree, path)
  {
    hide Honest, Store, Drawn;
    if PeerStatus(w.tree, name) == Missing && Drawn(draw, i).Some? {
      var keys := Drawn(draw, i).value;
      StoreFrame(base, w, PeerPath(name, PrivateKey), Line(keys.pair.privateKey), path);
      var first := Store(w, PeerPath(name, PrivateKey), Line(keys.pair.privateKey));
      StoreFrame(base, first, PeerPath(name, PublicKey), Line(keys.pair.publicKey), path);
      var second := Store(first, PeerPath(name, PublicKey), Line(keys.pair.publicKey));
      StoreFrame(base, second, PeerPath(name, PresharedKey), Line(keys.preshared), path);
    }
    HonestIsAboutFiles(base, w);
    hide Exists;
  }

  /** Below none of these peers' directories. */
  predicate Outside(path: string, names: seq<string>) {
    forall i :: 0 <= i < |names| ==> !StartsWith(path, PeerDirectory(names[i]))
  }

  lemma {:induction false} MissingPeersFrame(base: Tree, w: Work, draw: Draw, selected: seq<string>, path: string)
    requires Honest(base, w)
    ensures Honest(base, MissingPeers(w, draw, selected))
    ensures Exists(w.tree, path) || Outside(path, selected) ==>
      Kept(w.tree, MissingPeers(w, draw, selected).tree, path)
    decreases |selected|
  {
    hide Honest, MissingPeer, StartsWith;
    if selected != [] {
      var last := |selected| - 1;
      MissingPeersFrame(base, w, draw, selected[..last], path);
      MissingPeerFrame(base, MissingPeers(w, draw, selected[..last]), draw, |selected|, selected[last], path);
    }
  }

  /** Not the phone configuration or the fingerprint of one of these peers. */
  predicate NotRendered(path: string, names: seq<string>) {
    forall i :: 0 <= i < |names| ==>
      path != PeerPath(names[i], PhoneConfig) && path != PeerPath(names[i], Fingerprint)
  }

  lemma RenderPhoneFrame(base: Tree, c: KeyConfig, w: Work, name: string, server: KeyPair, path: string)
    requires Honest(base, w)
    ensures Honest(base, RenderPhone(c, w, name, server))
    ensures path != PeerPath(name, PhoneConfig) && path != PeerPath(name, Fingerprint) ==>
      Kept(w.tree, RenderPhone(c, w, name, server).tree, path)
  {
    hide Honest, Store, Artifacts;
    var texts := Artifacts(c, w.tree, name, server);
    if texts.Some? {
      StoreFrame(base, w, PeerPath(name, PhoneConfig), texts.value.0, path);
      var first := Store(w, PeerPath(name, PhoneConfig), texts.value.0);
      StoreFrame(base, first, PeerPath(name, Fingerprint), texts.value.1, path);
    }
    HonestIsAboutFiles(base, w);
  }

  lemma {:induction false} RenderPhonesWithFrame(
    base: Tree, c: KeyConfig, w: Work, selected: seq<string>, server: KeyPair, path: string)
    requires Honest(base, w)
    ensures Honest(base, RenderPhonesWith(c, w, selected, server))
    ensures NotRendered(path, selected) ==> Kept(w.tree, RenderPhonesWith(c, w, selected, server).tree, path)
    decreases |selected|
  {
    hide Honest, RenderPhone, PeerPath;
    if selected != [] {
      var last := |selected| - 1;
      RenderPhonesWithFrame(base, c, w, selected[..last], server, path);
      RenderPhoneFrame(base, c, RenderPhonesWith(c, w, selected[..last], server), selected[last], server, path);
    }
  }

  lemma RenderPhonesFrame(base: Tree, c: KeyConfig, w: Work, selected: seq<string>, path: string)
    requires Honest(base, w)
    ensures Honest(base, RenderPhones(c, w, selected))
    ensures NotRendered(path, selected) ==> Kept(w.tree, RenderPhones(c, w, selected).tree, path)
  {
    hide Honest, RenderPhonesWith, NotRendered, LoadServer;
    HonestIsAboutFiles(base, w);
    if LoadServer(w.tree).Some? {
      RenderPhonesWithFrame(base, c, w, selected, LoadServer(w.tree).value, path);
    }
  }

  lemma {:induction false} RemoveAllFrame(base: Tree, w: Work, paths: seq<string>, path: string)
    requires Honest(base, w)
    ensures Honest(base, RemoveAll(w, paths))
    ensures path !in paths ==> Kept(w.tree, RemoveAll(w, paths).tree, path)
    decreases |paths|
  {
    hide Honest, Remove;
    if paths != [] {
      var last := |paths| - 1;
      RemoveAllFrame(base, w, paths[..last], path);
      RemoveFrame(base, RemoveAll(w, paths[..last]), paths[last], path);
      assert paths == paths[..last] + [paths[last]];
    }
  }

  /** Pruning touches files below undeclared children only. */
  lemma {:induction false} PruneFrame(
    base: Tree, c: KeyConfig, w: Work, children: seq<string>, files: string -> seq<string>, path: string)
    requires Honest(base, w)
    requires forall child :: child in children && child !in c.peers ==> path !in files(child)
    ensures Honest(base, PruneChildren(c, w, children, files))
    ensures Kept(w.tree, PruneChildren(c, w, children, files).tree, path)
    decreases |children|
  {
    hide Honest, RemoveAll;
    if children != [] {
      var last := children[|children| - 1];
      var before := PruneChildren(c, w, children[..|children| - 1], files);
      PruneFrame(base, c, w, children[..|children| - 1], files, path);
      HonestIsAboutFiles(base, before);
      RemoveAllFrame(base, before, files(last), path);
      HonestIsAboutFiles(base, RemoveAll(before, files(last)));
      hide Exists;
    }
  }

  /** Which paths that spares. */
  lemma SparedByPruning(c: KeyConfig, peers: Directory, t: Tree, path: string)
    requires Lists(peers, t)
    requires StartsWith(path, PeersRoot) ==> Child(path) in c.peers
    ensures forall child :: child in peers.children && child !in c.peers ==> path !in peers.files(child)
  {
    forall child | child in peers.children && child !in c.peers ensures path !in peers.files(child) {
      assert ListsBelow(peers.files(child), t, child);
      if StartsWith(path, PeerDirectory(child)) {
        ChildOfPeerPath(child, path);
      }
    }
  }

  // ------------------------------------------------------------- one whole call

  lemma RotatePeerFrame(c: KeyConfig, t: Tree, draw: Draw, name: string, path: string)
    ensures var w := RotatePeer(c, t, draw, name);
      && Honest(t, w)
      && (!StartsWith(path, PeerDirectory(name)) ==> Kept(t, w.tree, path))
  {
    hide Store, Drawn, RenderPhones;
    HonestIsAboutFiles(t, Begin(t));
    if Drawn(draw, 0).Some? {
      var keys := Drawn(draw, 0).value;
      assert Begin(t).tree == t;
      StoreFrame(t, Begin(t), PeerPath(name, PublicKey), Line(keys.pair.publicKey), path);
      var first := Store(Begin(t), PeerPath(name, PublicKey), Line(keys.pair.publicKey));
      StoreFrame(t, first, PeerPath(name, PresharedKey), Line(keys.preshared), path);
      var second := Store(first, PeerPath(name, PresharedKey), Line(keys.preshared));
      StoreFrame(t, second, PeerPath(name, PrivateKey), Line(keys.pair.privateKey), path);
      var third := Store(second, PeerPath(name, PrivateKey), Line(keys.pair.privateKey));
      hide Honest;
      RenderPhonesFrame(t, c, third, [name], path);
    }
  }

  lemma RotateServerFrame(c: KeyConfig, t: Tree, draw: Draw, path: string)
    ensures var w := RotateServer(c, t, draw);
      && Honest(t, w)
      && (path !in {ServerPath(PrivateKey), ServerPath(PublicKey)} && NotRendered(path, c.peers) ==>
            Kept(t, w.tree, path))
  {
    hide Store, DrawnPair, RenderPhones, NotRendered;
    HonestIsAboutFiles(t, Begin(t));
    if DrawnPair(draw, 0).Some? {
      var pair := DrawnPair(draw, 0).value;
      StoreFrame(t, Begin(t), ServerPath(PublicKey), Line(pair.publicKey), path);
      var first := Store(Begin(t), ServerPath(PublicKey), Line(pair.publicKey));
      StoreFrame(t, first, ServerPath(PrivateKey), Line(pair.privateKey), path);
      var second := Store(first, ServerPath(PrivateKey), Line(pair.privateKey));
      hide Honest;
      RenderPhonesFrame(t, c, second, c.peers, path);
    }
  }

  lemma GenerateFrame(c: KeyConfig, t: Tree, draw: Draw, selected: seq<string>, path: string)
    ensures var w := GenerateMissing(c, t, draw, selected);
      && Honest(t, w)
      && (Exists(t, path) || (path !in {ServerPath(PrivateKey), ServerPath(PublicKey)} && Outside(path, selected))
          ==> (NotRendered(path, selected) ==> Kept(t, w.tree, path)))
  {
    hide MissingServer, MissingPeers, RenderPhones, NotRendered, Outside, AllLoad;
    HonestIsAboutFiles(t, Begin(t));
    MissingServerFrame(t, Begin(t), draw, path);
    var served := MissingServer(Begin(t), draw);
    MissingPeersFrame(t, served, draw, selected, path);
    var keyed := MissingPeers(served, draw, selected);
    HonestIsAboutFiles(t, keyed);
    assert Exists(t, path) && Kept(t, served.tree, path) ==> Exists(served.tree, path);
    hide Honest;
    RenderPhonesFrame(t, c, keyed, selected, path);
  }

  lemma {:induction false} PruneIsHonest(
    base: Tree, c: KeyConfig, w: Work, children: seq<string>, files: string -> seq<string>)
    requires Honest(base, w)
    ensures Honest(base, PruneChildren(c, w, children, files))
    decreases |children|
  {
    hide Honest, RemoveAll;
    if children != [] {
      var last := children[|children| - 1];
      var before := PruneChildren(c, w, children[..|children| - 1], files);
      PruneIsHonest(base, c, w, children[..|children| - 1], files);
      HonestIsAboutFiles(base, before);
      RemoveAllFrame(base, before, files(last), "");
      HonestIsAboutFiles(base, RemoveAll(before, files(last)));
    }
  }

  /** A call's writes are all it does. */
  lemma WorkIsHonest(call: Call, t: Tree)
    ensures Honest(t, WorkOf(call, t))
  {
    assert Honest(t, Begin(t));
    HonestIsAboutFiles(t, Begin(t));
    hide Honest, GenerateMissing, RenderPhones, RotatePeer, RotateServer, PruneChildren, Begin;
    match call
    case Generating(c, _, draw) =>
      if Selected(call).Some? {
        GenerateFrame(c, t, draw, Selected(call).value, "");
      }
    case Regenerating(c, name) => RenderPhonesFrame(t, c, Begin(t), [name], "");
    case RotatingPeer(c, name, draw, _) => RotatePeerFrame(c, t, draw, name, "");
    case RotatingServer(c, draw, _) => RotateServerFrame(c, t, draw, "");
    case Pruning(c, listing) => PruneIsHonest(t, c, Begin(t), listing(t).children, listing(t).files);
  }

  lemma OwnFilesAreOutside(path: string, name: string, names: seq<string>)
    requires PlainName(name) && StartsWith(path, PeerDirectory(name)) && name !in names
    requires forall i :: 0 <= i < |names| ==> PlainName(names[i])
    ensures Outside(path, names) && NotRendered(path, names)
    ensures path !in {ServerPath(PrivateKey), ServerPath(PublicKey)}
  {
    ServerIsNoPeer(name, PrivateKey);
    ServerIsNoPeer(name, PublicKey);
    hide PlainName;
    forall i | 0 <= i < |names|
      ensures !StartsWith(path, PeerDirectory(names[i]))
      ensures path != PeerPath(names[i], PhoneConfig) && path != PeerPath(names[i], Fingerprint)
    {
      if StartsWith(path, PeerDirectory(names[i])) {
        SameDirectory(name, names[i], path);
      }
      PeerPathIsBelow(names[i], PhoneConfig);
      PeerPathIsBelow(names[i], Fingerprint);
    }
  }

  lemma PeerPathIsBelow(name: string, file: string)
    ensures StartsWith(PeerPath(name, file), PeerDirectory(name))
  {
  }

  /** A call leaves every file of a peer it does not touch as it was. */
  lemma {:induction false} UntouchedPeerKeepsItsFiles(call: Call, t: Tree, name: string, path: string)
    requires WellFormedCall(call) && RequestOf(call).Some?
    requires PlainName(name) && StartsWith(path, PeerDirectory(name)) && !Touches(call, name)
    ensures Kept(t, WorkOf(call, t).tree, path)
  {
    assert Honest(t, Begin(t)) && Begin(t).tree == t;
    if call.Pruning? {
      ChildOfPeerPath(name, path);
      hide Honest, Begin;
      var peers := call.listing(t);
      SparedByPruning(call.config, peers, t, path);
      PruneFrame(t, call.config, Begin(t), peers.children, peers.files, path);
    } else {
      SelectedIffConcerned(call);
      OwnFilesAreOutside(path, name, Selected(call).value);
      hide Honest, GenerateMissing, RenderPhones, RotatePeer, RotateServer, PruneChildren, Begin, NotRendered, Outside;
      match call
      case Generating(c, _, draw) => GenerateFrame(c, t, draw, Selected(call).value, path);
      case Regenerating(c, n) => RenderPhonesFrame(t, c, Begin(t), [n], path);
      case RotatingPeer(c, n, draw, _) =>
        assert !StartsWith(path, PeerDirectory([n][0])) by { OutsideFirst(path, [n]); }
        RotatePeerFrame(c, t, draw, n, path);
      case RotatingServer(c, draw, _) => RotateServerFrame(c, t, draw, path);
    }
  }

  lemma OutsideFirst(path: string, names: seq<string>)
    requires Outside(path, names) && names != []
    ensures !StartsWith(path, PeerDirectory(names[0]))
  {
  }

  /** Where keys are kept. */
  predicate IsKeyFile(path: string) {
    path in {ServerPath(PrivateKey), ServerPath(PublicKey)}
  }

  predicate IsPeerKeyFile(path: string, name: string) {
    path in {PeerPath(name, PrivateKey), PeerPath(name, PublicKey), PeerPath(name, PresharedKey)}
  }

  lemma KeyFilesAreNotRendered(path: string, name: string, names: seq<string>)
    requires IsKeyFile(path) || (IsPeerKeyFile(path, name) && PlainName(name))
    requires forall i :: 0 <= i < |names| ==> PlainName(names[i])
    ensures NotRendered(path, names)
  {
    forall i | 0 <= i < |names|
      ensures path != PeerPath(names[i], PhoneConfig) && path != PeerPath(names[i], Fingerprint)
    {
      if IsKeyFile(path) {
        assert path[0] == 's' && PeerDirectory(names[i])[0] == 'p';
      } else if name != names[i] {
        PeerPathIsBelow(name, PrivateKey);
        PeerPathIsBelow(name, PublicKey);
        PeerPathIsBelow(name, PresharedKey);
        OwnFilesAreOutside(path, name, [names[i]]);
        assert NotRendered(path, [names[i]]) && [names[i]][0] == names[i];
      } else {
        FilesDiffer(name);
      }
    }
  }

  lemma FilesDiffer(name: string)
    ensures forall file :: file in {PrivateKey, PublicKey, PresharedKey} ==>
      PeerPath(name, file) != PeerPath(name, PhoneConfig) && PeerPath(name, file) != PeerPath(name, Fingerprint)
  {
    var d := |PeerDirectory(name)|;
    assert PeerPath(name, PrivateKey)[d..] == PrivateKey && PeerPath(name, PublicKey)[d..] == PublicKey;
    assert PeerPath(name, PresharedKey)[d..] == PresharedKey && PeerPath(name, PhoneConfig)[d..] == PhoneConfig;
    assert PeerPath(name, Fingerprint)[d..] == Fingerprint;
    assert PrivateKey[1] == 'r' && PublicKey[1] == 'u' && PhoneConfig[1] == 'h' && Fingerprint[1] == 'i';
    assert PrivateKey[0] == 'p' && PresharedKey[2] == 'e' && |PrivateKey| != |PhoneConfig|;
    assert |PresharedKey| != |PhoneConfig|;
  }

  /** Generating missing keys and re-rendering never overwrite or drop a key that is
    there, whoever's it is. */
  lemma {:induction false} GeneratingKeepsExistingKeys(call: Call, t: Tree, name: string, path: string)
    requires WellFormedCall(call) && RequestOf(call).Some? && (call.Generating? || call.Regenerating?)
    requires IsKeyFile(path) || (IsPeerKeyFile(path, name) && PlainName(name))
    requires Exists(t, path)
    ensures Kept(t, WorkOf(call, t).tree, path)
  {
    assert Honest(t, Begin(t)) && Begin(t).tree == t;
    KeyFilesAreNotRendered(path, name, Selected(call).value);
    hide Honest, GenerateMissing, RenderPhones, NotRendered, Begin, IsKeyFile, IsPeerKeyFile;
    match call
    case Generating(c, _, draw) => GenerateFrame(c, t, draw, Selected(call).value, path);
    case Regenerating(c, n) => RenderPhonesFrame(t, c, Begin(t), [n], path);
  }

  // ------------------------------------------------------------- over histories

  ghost predicate KeyRequest(req: Request) {
    exists call :: WellFormedCall(call) && RequestOf(call) == Some(req)
  }

  ghost predicate OnlyKeyCalls(events: seq<Event>) {
    forall i :: 0 <= i < |events| ==> (events[i].BeginWrite? ==> KeyRequest(events[i].req))
  }

  ghost predicate KeyHistory(history: seq<Publication>) {
    forall i :: 0 <= i < |history| ==> KeyRequest(history[i].req)
  }

  ghost predicate KeyWriters(s: System) {
    forall p: Pid :: ProcessOf(s, p).Writer? ==> KeyRequest(ProcessOf(s, p).req)
  }

  lemma StepKeepsKeyHistory(s: System, e: Event, s': System)
    requires KeyHistory(s.history) && KeyWriters(s)
    requires Step(s, e) == Some(s')
    requires e.BeginWrite? ==> KeyRequest(e.req)
    ensures KeyHistory(s'.history) && KeyWriters(s')
  {
    hide KeyRequest;
    if e.WriterStep? {
      var req, c := ProcessOf(s, e.pid).req, ConfigOf(s, e.pid);
      assert s'.history == HistoryAfter(s.history, req, c, e.act) by { hide Next; }
      hide Next;
      assert forall p: Pid :: p != e.pid ==> ProcessOf(s', p) == ProcessOf(s, p);
    } else {
      OtherStepFrame(s, e, s');
      hide Step;
      assert forall p: Pid :: p != e.pid ==> ProcessOf(s', p) == ProcessOf(s, p);
    }
  }

  lemma {:induction false} PlayKeepsKeyHistory(s: System, events: seq<Event>, s': System)
    requires KeyHistory(s.history) && KeyWriters(s) && OnlyKeyCalls(events)
    requires Play(s, events) == Some(s')
    ensures KeyHistory(s'.history)
    decreases |events|
  {
    if events != [] {
      var next := Step(s, events[0]).value;
      hide Step, KeyRequest, KeyWriters, KeyHistory;
      StepKeepsKeyHistory(s, events[0], next);
      forall i | 0 <= i < |events[1..]| ensures events[1..][i].BeginWrite? ==> KeyRequest(events[1..][i].req) {
        assert events[1..][i] == events[i + 1];
      }
      PlayKeepsKeyHistory(next, events[1..], s');
    }
  }

  /** In every run of key calls, each published generation is the outcome of some key
    call on the one before, valid for that call. */
  lemma PublishedByKeyCalls(s0: System, events: seq<Event>, s: System)
    requires Initial(s0) && OnlyKeyCalls(events)
    requires Play(s0, events) == Some(s)
    ensures KeyHistory(s.history) && Chain(s.history, s0.disk.legacy)
  {
    assert KeyHistory(s0.history) && KeyWriters(s0);
    ReachableInv(s0, events, s);
    OriginIsFixed(s0, events, s);
    OriginIsLegacy(s0);
    hide Chain, KeyHistory, KeyWriters, OnlyKeyCalls, Play, Initial, DiskInv, Locks, Bound, WritersInv;
    PlayKeepsKeyHistory(s0, events, s);
  }

  /** Receipt and manifest are no data files. */
  lemma PublicationData(p: Publication, call: Call, path: string)
    requires Successful(p) && RequestOf(call) == Some(p.req)
    ensures WorkOf(call, p.base).ok
    ensures Kept(WorkOf(call, p.base).tree, p.tree, path)
    ensures Validates(call, Mutation(p.req, p.base))
  {
    WorkIsHonest(call, p.base);
    assert p.req.run(p.base) == RunOf(call, p.base);
    hide WorkOf, Validates;
  }

  lemma SameText(t: Tree, t': Tree, path: string)
    requires Kept(t, t', path)
    ensures Text(t', path) == Text(t, path) && Exists(t', path) == Exists(t, path)
  {
  }

  /** The files of a peer change only through a call that touches it: over any stretch
    of the history without one, they stay the same, file by file. */
  lemma {:induction false} PeerFilesChangeOnlyWhenTouched(
    history: seq<Publication>, origin: Tree, calls: seq<Call>, i: nat, j: nat, name: string, path: string)
    requires Chain(history, origin) && |calls| == |history|
    requires forall k :: 0 <= k < |calls| ==> WellFormedCall(calls[k]) && RequestOf(calls[k]) == Some(history[k].req)
    requires i <= j < |history|
    requires PlainName(name) && StartsWith(path, PeerDirectory(name))
    requires forall k :: i < k <= j ==> !Touches(calls[k], name)
    ensures Kept(history[i].tree, history[j].tree, path)
    decreases j - i
  {
    hide Successful, RequestOf, WellFormedCall, Touches, PlainName, StartsWith;
    if i < j {
      PeerFilesChangeOnlyWhenTouched(history, origin, calls, i, j - 1, name, path);
      assert Continues(history, origin, j);
      assert history[j].base == Carried(history[j - 1].tree);
      assert RequestOf(calls[j]) == Some(history[j].req);
      UntouchedPeerKeepsItsFiles(calls[j], history[j].base, name, path);
      PublicationData(history[j], calls[j], path);
    }
  }

  // -------------------------------------------------------- what validation gives

  /** Key readings depend on data files only. */
  lemma SealedReadsAlike(t: Tree, id: Id, c: KeyConfig, name: string)
    ensures LoadServer(Sealed(t, id)) == LoadServer(t)
    ensures LoadPeer(Sealed(t, id), name) == LoadPeer(t, name)
    ensures PhoneIsCurrent(c, Sealed(t, id), name) == PhoneIsCurrent(c, t, name)
    ensures PeerStatus(Sealed(t, id), name) == PeerStatus(t, name)
  {
    assert forall path :: Exists(Sealed(t, id), path) == Exists(t, path);
    assert forall path :: Text(Sealed(t, id), path) == Text(t, path);
    hide Text, Strip, ValidKey, Sealed, Exists;
  }

  /** Server keys load, and the phone configurations of the peers the call is for are
    what its configuration and these keys give; after a server rotation these are all
    declared peers. After pruning, each declared peer has all its keys or none. */
  ghost predicate Usable(t: Tree, call: Call) {
    && LoadServer(t).Some?
    && (forall name :: Concerns(call, name) ==> PhoneMatchesKeys(call.config, t, name))
    && (call.Pruning? ==>
          forall name :: name in call.config.peers ==> NoPeerKeys(t, name) || LoadPeer(t, name).Some?)
  }

  predicate NoPeerKeys(t: Tree, name: string) {
    forall file :: file in {"private.key", "public.key", "preshared.key"} ==> !Exists(t, "peers/" + name + "/" + file)
  }

  predicate NoServerKeys(t: Tree) {
    !Exists(t, "server/private.key") && !Exists(t, "server/public.key")
  }

  lemma MissingMeans(t: Tree, name: string)
    ensures PeerStatus(t, name) == Missing <==> NoPeerKeys(t, name)
    ensures ServerStatus(t) == Missing <==> NoServerKeys(t)
  {
    assert "server/" + "private.key" == "server/private.key" && "server/" + "public.key" == "server/public.key";
    hide Exists;
    assert NoPeerKeys(t, name) <==>
      !Exists(t, PeerPath(name, "private.key")) && !Exists(t, PeerPath(name, "public.key"))
      && !Exists(t, PeerPath(name, "preshared.key"));
  }

  /** The two files are what the configuration makes of the server's public key and of the
    peer's keys: the configuration has the private one, the fingerprint the public one. */
  ghost predicate PhoneMatchesKeys(c: KeyConfig, t: Tree, name: string) {
    exists server, keys ::
      && LoadServer(t) == Some(server) && LoadPeer(t, name) == Some(keys)
      && Text(t, "peers/" + name + "/" + "phone.conf")
         == Some(c.phone(name, server.publicKey, keys.pair.privateKey, keys.preshared))
      && Text(t, "peers/" + name + "/" + "fingerprint.json")
         == Some(c.fingerprint(name, server.publicKey, keys.pair.publicKey, keys.preshared))
  }

  lemma CurrentPhoneMatches(c: KeyConfig, t: Tree, name: string)
    requires PhoneIsCurrent(c, t, name)
    ensures PhoneMatchesKeys(c, t, name)
  {
    var server, keys := LoadServer(t).value, LoadPeer(t, name).value;
    assert LoadServer(t) == Some(server) && LoadPeer(t, name) == Some(keys);
    hide LoadServer, LoadPeer, Text;
  }

  /** Every generation published in a run of key calls is some key call's, and usable. */
  lemma {:induction false} PublishedKeysAreUsable(s0: System, events: seq<Event>, s: System, i: nat)
    requires Initial(s0) && OnlyKeyCalls(events)
    requires Play(s0, events) == Some(s)
    requires i < |s.history|
    ensures exists call ::
      WellFormedCall(call) && RequestOf(call) == Some(s.history[i].req) && Usable(s.history[i].tree, call)
  {
    PublishedByKeyCalls(s0, events, s);
    assert Continues(s.history, s0.disk.legacy, i);
    assert KeyRequest(s.history[i].req);
    hide Play, OnlyKeyCalls, Initial, KeyHistory, RequestOf, WellFormedCall, PhoneIsCurrent, LoadServer, Successful;
    var call :| WellFormedCall(call) && RequestOf(call) == Some(s.history[i].req);
    ValidPublication(s.history[i], call, "");
    SelectedIffConcerned(call);
    forall name | Concerns(call, name) ensures PhoneMatchesKeys(call.config, s.history[i].tree, name) {
      ValidPublication(s.history[i], call, name);
      CurrentPhoneMatches(call.config, s.history[i].tree, name);
    }
    forall name | call.Pruning? && name in call.config.peers
      ensures NoPeerKeys(s.history[i].tree, name) || LoadPeer(s.history[i].tree, name).Some?
    {
      ValidPublication(s.history[i], call, name);
      MissingMeans(s.history[i].tree, name);
    }
  }

  lemma ValidPublication(p: Publication, call: Call, name: string)
    requires Successful(p) && RequestOf(call) == Some(p.req)
    ensures LoadServer(p.tree).Some?
    ensures !call.Pruning? && Selected(call).Some? && name in Selected(call).value ==>
      PhoneIsCurrent(call.config, p.tree, name)
    ensures call.Pruning? && name in call.config.peers ==>
      PeerStatus(p.tree, name) == Missing || LoadPeer(p.tree, name).Some?
  {
    PublicationData(p, call, "");
    var t := Mutation(p.req, p.base);
    assert p.tree == Sealed(t, p.id);
    hide Successful, RequestOf, Mutation, LoadServer, LoadPeer, PeerStatus, PhoneIsCurrent, Sealed;
    SealedReadsAlike(t, p.id, call.config, name);
    if !call.Pruning? && name in Selected(call).value {
      var k :| 0 <= k < |Selected(call).value| && Selected(call).value[k] == name;
    }
    if call.Pruning? && name in call.config.peers {
      var k :| 0 <= k < |call.config.peers| && call.config.peers[k] == name;
    }
  }

  // -------------------------------------------------------------- rotation happens

  lemma StoreKey(base: Tree, w: Work, path: string, key: string)
    requires Honest(base, w) && w.ok && ValidKey(key)
    ensures var w' := Store(w, path, Line(key));
      && Honest(base, w') && w'.ok
      && ReadKey(w'.tree, path) == Some(key)
      && w'.names == w.names
      && forall other :: other != path ==> ReadKey(w'.tree, other) == ReadKey(w.tree, other)
  {
    KeyOfLine(key);
    StoreFrame(base, w, path, Line(key), "");
    hide ValidKey, Strip, Honest;
  }

  lemma RotatedPeer(t: Tree, name: string, keys: PeerSecrets)
    requires ValidKeys(keys)
    ensures var w := WritePeerRotated(Begin(t), name, keys);
      && w.ok && Honest(t, w)
      && LoadPeer(w.tree, name) == Some(keys)
      && LoadServer(w.tree) == LoadServer(t)
  {
    KeyFilesDiffer(name);
    ServerPathsDiffer(name);
    assert Honest(t, Begin(t)) && Begin(t).tree == t && Begin(t).ok;
    hide ValidKey, Line, PeerPath, ServerPath, Honest, ReadKey, Store, Begin;
    var w1 := Store(Begin(t), PeerPath(name, PublicKey), Line(keys.pair.publicKey));
    var w2 := Store(w1, PeerPath(name, PresharedKey), Line(keys.preshared));
    StoreKey(t, Begin(t), PeerPath(name, PublicKey), keys.pair.publicKey);
    StoreKey(t, w1, PeerPath(name, PresharedKey), keys.preshared);
    StoreKey(t, w2, PeerPath(name, PrivateKey), keys.pair.privateKey);
  }

  lemma RotatedServer(t: Tree, name: string, pair: KeyPair)
    requires ValidKey(pair.privateKey) && ValidKey(pair.publicKey)
    ensures var w := WriteServerRotated(Begin(t), pair);
      && w.ok && Honest(t, w)
      && LoadServer(w.tree) == Some(pair)
      && LoadPeer(w.tree, name) == LoadPeer(t, name)
  {
    ServerPathsDiffer(name);
    assert Honest(t, Begin(t)) && Begin(t).tree == t && Begin(t).ok;
    hide ValidKey, Line, PeerPath, ServerPath, Honest, ReadKey, Store, Begin;
    var w1 := Store(Begin(t), ServerPath(PublicKey), Line(pair.publicKey));
    StoreKey(t, Begin(t), ServerPath(PublicKey), pair.publicKey);
    StoreKey(t, w1, ServerPath(PrivateKey), pair.privateKey);
  }

  lemma ServerPathsDiffer(name: string)
    ensures ServerPath(PublicKey) != ServerPath(PrivateKey)
    ensures forall file, other :: ServerPath(file) != PeerPath(name, other)
  {
    assert ServerPath(PublicKey)[8] == 'u' && ServerPath(PrivateKey)[8] == 'r';
    forall file, other ensures ServerPath(file) != PeerPath(name, other) {
      assert ServerPath(file)[0] == 's' && PeerPath(name, other)[0] == 'p';
    }
  }

  /** Rendering phone configurations leaves every key readable as before. */
  lemma RenderingKeepsKeys(base: Tree, c: KeyConfig, w: Work, selected: seq<string>, name: string)
    requires Honest(base, w) && PlainName(name)
    requires forall i :: 0 <= i < |selected| ==> PlainName(selected[i])
    ensures var after := RenderPhones(c, w, selected).tree;
      LoadServer(after) == LoadServer(w.tree) && LoadPeer(after, name) == LoadPeer(w.tree, name)
  {
    var after := RenderPhones(c, w, selected).tree;
    var paths := [ServerPath(PrivateKey), ServerPath(PublicKey),
                  PeerPath(name, PrivateKey), PeerPath(name, PublicKey), PeerPath(name, PresharedKey)];
    hide Honest, RenderPhones, NotRendered, PlainName, Text;
    forall i | 0 <= i < 5 ensures Text(after, paths[i]) == Text(w.tree, paths[i]) {
      assert IsKeyFile(paths[i]) || IsPeerKeyFile(paths[i], name);
      KeyFilesAreNotRendered(paths[i], name, selected);
      RenderPhonesFrame(base, c, w, selected, paths[i]);
      SameText(w.tree, after, paths[i]);
    }
    assert Text(after, paths[0]) == Text(w.tree, paths[0]) && Text(after, paths[1]) == Text(w.tree, paths[1]);
    assert Text(after, paths[2]) == Text(w.tree, paths[2]) && Text(after, paths[3]) == Text(w.tree, paths[3]);
    assert Text(after, paths[4]) == Text(w.tree, paths[4]);
    hide ValidKey, Strip, PeerPath, ServerPath;
  }

  lemma FirstPeerKeys(base: Tree, w: Work, name: string, keys: PeerSecrets)
    requires Honest(base, w) && w.ok && ValidKeys(keys)
    ensures var w' := WritePeerFirst(w, name, keys);
      && w'.ok && Honest(base, w') && w'.names == w.names
      && LoadPeer(w'.tree, name) == Some(keys)
  {
    KeyFilesDiffer(name);
    hide ValidKey, Line, PeerPath, Honest, ReadKey, Store;
    var w1 := Store(w, PeerPath(name, PrivateKey), Line(keys.pair.privateKey));
    var w2 := Store(w1, PeerPath(name, PublicKey), Line(keys.pair.publicKey));
    StoreKey(base, w, PeerPath(name, PrivateKey), keys.pair.privateKey);
    StoreKey(base, w1, PeerPath(name, PublicKey), keys.pair.publicKey);
    StoreKey(base, w2, PeerPath(name, PresharedKey), keys.preshared);
  }

  lemma FirstServerKeys(base: Tree, w: Work, pair: KeyPair)
    requires Honest(base, w) && w.ok && ValidKey(pair.privateKey) && ValidKey(pair.publicKey)
    ensures var w' := WriteServerFirst(w, pair);
      && w'.ok && Honest(base, w') && w'.names == w.names
      && LoadServer(w'.tree) == Some(pair)
  {
    ServerPathsDiffer("");
    hide ValidKey, Line, ServerPath, Honest, ReadKey, Store;
    var w1 := Store(w, ServerPath(PrivateKey), Line(pair.privateKey));
    StoreKey(base, w, ServerPath(PrivateKey), pair.privateKey);
    StoreKey(base, w1, ServerPath(PublicKey), pair.publicKey);
  }

  lemma SameKeys(t: Tree, t': Tree, name: string)
    requires forall path :: IsPeerKeyFile(path, name) ==> Kept(t, t', path)
    ensures LoadPeer(t', name) == LoadPeer(t, name) && PeerStatus(t', name) == PeerStatus(t, name)
  {
    assert Kept(t, t', PeerPath(name, PrivateKey)) && Kept(t, t', PeerPath(name, PublicKey))
        && Kept(t, t', PeerPath(name, PresharedKey));
    hide ValidKey, Strip, PeerPath;
  }

  lemma SameServerKeys(t: Tree, t': Tree)
    requires forall path :: IsKeyFile(path) ==> Kept(t, t', path)
    ensures LoadServer(t') == LoadServer(t) && ServerStatus(t') == ServerStatus(t)
  {
    assert Kept(t, t', ServerPath(PrivateKey)) && Kept(t, t', ServerPath(PublicKey));
    hide ValidKey, Strip, ServerPath;
  }

  predicate AllPlain(names: seq<string>) {
    forall i :: 0 <= i < |names| ==> PlainName(names[i])
  }

  predicate AllDifferent(names: seq<string>) {
    forall i, k :: 0 <= i < k < |names| ==> names[i] != names[k]
  }

  /** The peers among these whose keys are missing, in order. */
  function MissingAmong(t: Tree, names: seq<string>): seq<string> {
    if names == [] then []
    else
      var last := |names| - 1;
      MissingAmong(t, names[..last]) + (if PeerStatus(t, names[last]) == Missing then [names[last]] else [])
  }

  /** Generation gives every missing peer its own draw, and changes no other peer's keys. */
  lemma {:induction false} MissingPeersInstall(base: Tree, w: Work, draw: Draw, selected: seq<string>, name: string)
    requires Honest(base, w) && w.ok && AllPlain(selected) && AllDifferent(selected) && PlainName(name)
    requires MissingPeers(w, draw, selected).ok
    ensures var after := MissingPeers(w, draw, selected);
      && Honest(base, after)
      && after.names == w.names + MissingAmong(w.tree, selected)
      && (name !in selected ==>
            LoadPeer(after.tree, name) == LoadPeer(w.tree, name) && PeerStatus(after.tree, name) == PeerStatus(w.tree, name))
      && (forall i :: 0 <= i < |selected| && selected[i] == name ==>
            if PeerStatus(w.tree, name) == Missing then LoadPeer(after.tree, name) == Drawn(draw, i + 1)
            else LoadPeer(after.tree, name) == LoadPeer(w.tree, name))
    decreases |selected|
  {
    hide Honest, LoadPeer, PlainName, Drawn, PeerStatus;
    if selected != [] {
      var last := |selected| - 1;
      var before := MissingPeers(w, draw, selected[..last]);
      assert selected == selected[..last] + [selected[last]];
      assert before.ok;
      MissingPeersInstall(base, w, draw, selected[..last], name);
      MissingPeersInstall(base, w, draw, selected[..last], selected[last]);
      assert selected[last] !in selected[..last];
      OnePeerInstalls(base, before, draw, |selected|, selected[last], name);
    }
  }

  lemma OnePeerInstalls(base: Tree, w: Work, draw: Draw, i: nat, peer: string, name: string)
    requires Honest(base, w) && w.ok && PlainName(peer) && PlainName(name)
    requires MissingPeer(w, draw, i, peer).ok
    ensures var after := MissingPeer(w, draw, i, peer);
      && Honest(base, after)
      && after.names == w.names + (if PeerStatus(w.tree, peer) == Missing then [peer] else [])
      && (name != peer ==>
            LoadPeer(after.tree, name) == LoadPeer(w.tree, name) && PeerStatus(after.tree, name) == PeerStatus(w.tree, name))
      && (if PeerStatus(w.tree, peer) == Missing then LoadPeer(after.tree, peer) == Drawn(draw, i)
          else after == w)
  {
    var after := MissingPeer(w, draw, i, peer);
    hide Honest, LoadPeer, PeerStatus, WritePeerFirst;
    forall path | name != peer && IsPeerKeyFile(path, name) ensures Kept(w.tree, after.tree, path) {
      PeerPathIsBelow(name, PrivateKey);
      PeerPathIsBelow(name, PublicKey);
      PeerPathIsBelow(name, PresharedKey);
      OwnFilesAreOutside(path, name, [peer]);
      OutsideFirst(path, [peer]);
      MissingPeerFrame(base, w, draw, i, peer, path);
    }
    if name != peer {
      SameKeys(w.tree, after.tree, name);
    }
    if PeerStatus(w.tree, peer) == Missing {
      FirstPeerKeys(base, w, peer, Drawn(draw, i).value);
      HonestIsAboutFiles(base, WritePeerFirst(w, peer, Drawn(draw, i).value));
    }
  }

  lemma ServerInstalls(t: Tree, draw: Draw, name: string)
    requires MissingServer(Begin(t), draw).ok && PlainName(name)
    ensures var after := MissingServer(Begin(t), draw);
      && Honest(t, after)
      && after.names == (if ServerStatus(t) == Missing then ["server"] else [])
      && (if ServerStatus(t) == Missing
          then DrawnPair(draw, 0).Some? && LoadServer(after.tree) == Some(DrawnPair(draw, 0).value)
          else after.tree == t)
      && LoadPeer(after.tree, name) == LoadPeer(t, name) && PeerStatus(after.tree, name) == PeerStatus(t, name)
  {
    var after := MissingServer(Begin(t), draw);
    assert Honest(t, Begin(t)) && Begin(t).tree == t;
    hide Honest, LoadPeer, LoadServer, PeerStatus, ServerStatus, WriteServerFirst;
    forall path | IsPeerKeyFile(path, name) ensures Kept(t, after.tree, path) {
      ServerPathsDiffer(name);
      MissingServerFrame(t, Begin(t), draw, path);
    }
    SameKeys(t, after.tree, name);
    if ServerStatus(t) == Missing {
      FirstServerKeys(t, Begin(t), DrawnPair(draw, 0).value);
      HonestIsAboutFiles(t, WriteServerFirst(Begin(t), DrawnPair(draw, 0).value));
    }
  }

  lemma SelectedArePlain(call: Call)
    requires call.Generating? && WellFormedCall(call) && Selected(call).Some?
    ensures AllPlain(Selected(call).value)
    ensures forall i :: 0 <= i < |Selected(call).value| ==> PlainName(Selected(call).value[i])
  {
    hide PlainName;
    var c := call.config;
    if call.peer.Some? {
      var k :| 0 <= k < |c.peers| && c.peers[k] == call.peer.value;
    }
  }

  /** A completed generation went through all its steps. */
  lemma GenerationSteps(c: KeyConfig, t: Tree, draw: Draw, selected: seq<string>)
    requires GenerateMissing(c, t, draw, selected).ok
    ensures var served := MissingServer(Begin(t), draw);
      var keyed := MissingPeers(served, draw, selected);
      && served.ok && keyed.ok && GenerateMissing(c, t, draw, selected) == RenderPhones(c, keyed, selected)
      && RenderPhones(c, keyed, selected).names == keyed.names
      && LoadServer(keyed.tree).Some?
      && (forall i :: 0 <= i < |selected| ==> LoadPeer(keyed.tree, selected[i]).Some?)
  {
    var keyed := MissingPeers(MissingServer(Begin(t), draw), draw, selected);
    hide MissingServer, MissingPeers, LoadPeer, LoadServer, RenderPhonesWith;
    if LoadServer(keyed.tree).Some? {
      RenderingKeepsNames(c, keyed, selected, LoadServer(keyed.tree).value);
    }
  }

  lemma {:induction false} RenderingKeepsNames(c: KeyConfig, w: Work, selected: seq<string>, server: KeyPair)
    ensures RenderPhonesWith(c, w, selected, server).names == w.names
    decreases |selected|
  {
    if selected != [] {
      RenderingKeepsNames(c, w, selected[..|selected| - 1], server);
    }
  }

  lemma DrawnIsDraw(draw: Draw, i: nat)
    ensures Drawn(draw, i).Some? ==> Drawn(draw, i) == draw(i)
    ensures DrawnPair(draw, i).Some? ==> draw(i).Some? && DrawnPair(draw, i).value == draw(i).value.pair
  {
  }

  lemma MissingAmongAlike(t: Tree, draw: Draw, selected: seq<string>)
    requires MissingServer(Begin(t), draw).ok && AllPlain(selected)
    ensures MissingAmong(MissingServer(Begin(t), draw).tree, selected) == MissingAmong(t, selected)
  {
    hide MissingServer, PeerStatus, ServerStatus, Begin, PlainName, LoadPeer, LoadServer;
    forall i | 0 <= i < |selected|
      ensures PeerStatus(MissingServer(Begin(t), draw).tree, selected[i]) == PeerStatus(t, selected[i])
    {
      ServerInstalls(t, draw, selected[i]);
    }
    SameStatusSameMissing(t, MissingServer(Begin(t), draw).tree, selected);
  }

  lemma {:induction false} SameStatusSameMissing(t: Tree, t': Tree, names: seq<string>)
    requires forall i :: 0 <= i < |names| ==> PeerStatus(t', names[i]) == PeerStatus(t, names[i])
    ensures MissingAmong(t', names) == MissingAmong(t, names)
    decreases |names|
  {
    hide PeerStatus;
    if names != [] {
      SameStatusSameMissing(t, t', names[..|names| - 1]);
    }
  }

  lemma ServerKeysStay(base: Tree, w: Work, draw: Draw, selected: seq<string>)
    requires Honest(base, w)
    ensures LoadServer(MissingPeers(w, draw, selected).tree) == LoadServer(w.tree)
  {
    hide Honest, MissingPeers, LoadServer, ServerStatus;
    forall path | IsKeyFile(path) ensures Kept(w.tree, MissingPeers(w, draw, selected).tree, path) {
      forall i | 0 <= i < |selected| ensures !StartsWith(path, PeerDirectory(selected[i])) {
        ServerIsNoPeer(selected[i], PrivateKey);
        ServerIsNoPeer(selected[i], PublicKey);
      }
      MissingPeersFrame(base, w, draw, selected, path);
    }
    SameServerKeys(w.tree, MissingPeers(w, draw, selected).tree);
  }

  /** Keys are missing when none of the files is there, and partial when some are. */
  lemma StatusesMean(t: Tree, name: string)
    ensures PeerStatus(t, name) == Missing <==>
      !Exists(t, PeerPath(name, "private.key")) && !Exists(t, PeerPath(name, "public.key"))
      && !Exists(t, PeerPath(name, "preshared.key"))
    ensures PeerStatus(t, name) == Complete <==>
      Exists(t, PeerPath(name, "private.key")) && Exists(t, PeerPath(name, "public.key"))
      && Exists(t, PeerPath(name, "preshared.key"))
    ensures ServerStatus(t) == Missing <==>
      !Exists(t, ServerPath("private.key")) && !Exists(t, ServerPath("public.key"))
    ensures ServerStatus(t) == Complete <==>
      Exists(t, ServerPath("private.key")) && Exists(t, ServerPath("public.key"))
  {
  }

  /** Partial keys, of the server or of a selected peer, make generation raise. */
  lemma {:induction false} GenerationRefusesPartialKeys(call: Call, t: Tree, i: nat)
    requires call.Generating? && WellFormedCall(call) && Selected(call).Some?
    requires AllDifferent(Selected(call).value) && i < |Selected(call).value|
    requires ServerStatus(t) == Partial || PeerStatus(t, Selected(call).value[i]) == Partial
    ensures !WorkOf(call, t).ok
  {
    hide WellFormedCall, LoadPeer, LoadServer, PeerStatus, ServerStatus, MissingPeers, RenderPhones, PlainName, AllLoad, Begin;
    var selected, draw := Selected(call).value, call.draw;
    if WorkOf(call, t).ok {
      GenerationSteps(call.config, t, draw, selected);
      assert ServerStatus(t) != Partial by { BeginTree(t); }
      SelectedArePlain(call);
      ServerInstalls(t, draw, selected[i]);
      PartialPeerStops(t, MissingServer(Begin(t), draw), draw, selected, i);
    }
  }

  lemma BeginTree(t: Tree)
    ensures Begin(t).tree == t && Begin(t).ok
  {
  }

  lemma {:induction false} PartialPeerStops(base: Tree, w: Work, draw: Draw, selected: seq<string>, i: nat)
    requires Honest(base, w) && w.ok && AllPlain(selected) && AllDifferent(selected)
    requires i < |selected| && PeerStatus(w.tree, selected[i]) == Partial
    ensures !MissingPeers(w, draw, selected).ok
    decreases |selected|
  {
    hide Honest, LoadPeer, PlainName, Drawn, PeerStatus;
    var last := |selected| - 1;
    if MissingPeers(w, draw, selected[..last]).ok {
      if i < last {
        PartialPeerStops(base, w, draw, selected[..last], i);
      } else {
        MissingPeersInstall(base, w, draw, selected[..last], selected[last]);
      }
    }
  }

  /** A completed generation installs, for the server and for each selected peer that had
    no keys, exactly the keys drawn for it, each draw used once; it leaves all other keys
    as they were, and names exactly those it created. */
  lemma {:induction false} GenerationInstallsKeys(call: Call, t: Tree)
    requires call.Generating? && WellFormedCall(call) && Selected(call).Some?
    requires AllDifferent(Selected(call).value)
    requires WorkOf(call, t).ok
    ensures var after, selected := WorkOf(call, t), Selected(call).value;
      && (forall i :: 0 <= i < |selected| ==>
            if NoPeerKeys(t, selected[i])
            then call.draw(i + 1).Some? && LoadPeer(after.tree, selected[i]) == call.draw(i + 1)
            else LoadPeer(after.tree, selected[i]) == LoadPeer(t, selected[i]))
      && (if NoServerKeys(t)
          then call.draw(0).Some? && LoadServer(after.tree) == Some(call.draw(0).value.pair)
          else LoadServer(after.tree) == LoadServer(t))
      && after.names == (if NoServerKeys(t) then ["server"] else []) + MissingAmong(t, selected)
  {
    var after, selected := WorkOf(call, t), Selected(call).value;
    MissingMeans(t, "");
    ServerGenerated(call, t);
    forall i | 0 <= i < |selected|
      ensures
        if NoPeerKeys(t, selected[i])
        then call.draw(i + 1).Some? && LoadPeer(after.tree, selected[i]) == call.draw(i + 1)
        else LoadPeer(after.tree, selected[i]) == LoadPeer(t, selected[i])
    {
      MissingMeans(t, selected[i]);
      PeerGenerated(call, t, i);
    }
  }

  lemma ServerGenerated(call: Call, t: Tree)
    requires call.Generating? && WellFormedCall(call) && Selected(call).Some?
    requires AllDifferent(Selected(call).value)
    requires WorkOf(call, t).ok
    ensures var after := WorkOf(call, t);
      && (if ServerStatus(t) == Missing
          then call.draw(0).Some? && LoadServer(after.tree) == Some(call.draw(0).value.pair)
          else LoadServer(after.tree) == LoadServer(t))
      && after.names == (if ServerStatus(t) == Missing then ["server"] else [])
                        + MissingAmong(t, Selected(call).value)
  {
    hide WellFormedCall, LoadPeer, LoadServer, PeerStatus, ServerStatus, Honest, MissingPeers, MissingServer, RenderPhones,
      AllLoad, Begin, MissingAmong, Drawn, DrawnPair;
    var selected, draw, c := Selected(call).value, call.draw, call.config;
    SelectedArePlain(call);
    var served := MissingServer(Begin(t), draw);
    var keyed := MissingPeers(served, draw, selected);
    GenerationSteps(c, t, draw, selected);
    assert PlainName("a");
    hide PlainName;
    ServerInstalls(t, draw, "a");
    MissingAmongAlike(t, draw, selected);
    MissingPeersInstall(t, served, draw, selected, "a");
    ServerKeysStay(t, served, draw, selected);
    RenderingKeepsKeys(t, c, keyed, selected, "a");
    DrawnIsDraw(draw, 0);
  }

  lemma PeerGenerated(call: Call, t: Tree, i: nat)
    requires call.Generating? && WellFormedCall(call) && Selected(call).Some?
    requires AllDifferent(Selected(call).value) && i < |Selected(call).value|
    requires WorkOf(call, t).ok
    ensures var after, name := WorkOf(call, t), Selected(call).value[i];
      if PeerStatus(t, name) == Missing
      then call.draw(i + 1).Some? && LoadPeer(after.tree, name) == call.draw(i + 1)
      else LoadPeer(after.tree, name) == LoadPeer(t, name)
  {
    hide WellFormedCall, LoadPeer, LoadServer, PeerStatus, ServerStatus, Honest, MissingPeers, MissingServer, RenderPhones,
      PlainName, AllLoad, Begin, MissingAmong, Drawn, DrawnPair;
    var selected, draw, c := Selected(call).value, call.draw, call.config;
    var name := selected[i];
    SelectedArePlain(call);
    var served := MissingServer(Begin(t), draw);
    var keyed := MissingPeers(served, draw, selected);
    GenerationSteps(c, t, draw, selected);
    ServerInstalls(t, draw, name);
    MissingPeersInstall(t, served, draw, selected, name);
    RenderingKeepsKeys(t, c, keyed, selected, name);
    DrawnIsDraw(draw, i + 1);
  }

  /** One stands before the other. */
  ghost predicate Before(names: seq<string>, one: string, other: string) {
    exists x, y :: 0 <= x < y < |names| && names[x] == one && names[y] == other
  }

  lemma BeforeStays(names: seq<string>, last: string, one: string, other: string)
    ensures Before(names, one, other) ==> Before(names + [last], one, other)
    ensures one in names ==> Before(names + [last], one, last)
  {
    var more := names + [last];
    if x, y :| 0 <= x < y < |names| && names[x] == one && names[y] == other {
      assert more[x] == one && more[y] == other;
    }
    if x :| 0 <= x < |names| && names[x] == one {
      assert more[x] == one && more[|names|] == last;
    }
  }

  /** Each peer without keys is named once, in the order of selection. */
  lemma {:induction false} MissingAmongMeans(t: Tree, names: seq<string>)
    ensures forall name :: name in MissingAmong(t, names) <==> name in names && NoPeerKeys(t, name)
    ensures forall i, k :: 0 <= i < k < |MissingAmong(t, names)| ==>
      Before(names, MissingAmong(t, names)[i], MissingAmong(t, names)[k])
    decreases |names|
  {
    if names != [] {
      var last := |names| - 1;
      var before := MissingAmong(t, names[..last]);
      assert names == names[..last] + [names[last]];
      MissingAmongMeans(t, names[..last]);
      MissingMeans(t, names[last]);
      hide NoPeerKeys, PeerStatus, Before;
      forall i, k | 0 <= i < k < |MissingAmong(t, names)|
        ensures Before(names, MissingAmong(t, names)[i], MissingAmong(t, names)[k])
      {
        BeforeStays(names[..last], names[last], before[i], if k < |before| then before[k] else "");
        assert before[i] in names[..last];
      }
    }
  }

  /** A completed peer rotation has installed exactly the keys it generated, and left
    the server's alone. */
  lemma {:induction false} RotationInstallsPeerKeys(call: Call, t: Tree)
    requires call.RotatingPeer? && WellFormedCall(call) && RequestOf(call).Some?
    requires WorkOf(call, t).ok
    ensures LoadPeer(WorkOf(call, t).tree, call.name) == call.draw(0)
    ensures LoadServer(WorkOf(call, t).tree) == LoadServer(t)
  {
    var keys := Drawn(call.draw, 0).value;
    var w := WritePeerRotated(Begin(t), call.name, keys);
    assert PlainName(call.name);
    assert WorkOf(call, t) == RenderPhones(call.config, w, [call.name]);
    hide PlainName, WritePeerRotated, RenderPhones, LoadPeer, LoadServer, Honest;
    RotatedPeer(t, call.name, keys);
    RenderingKeepsKeys(t, call.config, w, [call.name], call.name);
  }

  /** A completed server rotation has installed exactly the pair it generated, and left
    every peer's keys alone. */
  lemma {:induction false} RotationInstallsServerKeys(call: Call, t: Tree, name: string)
    requires call.RotatingServer? && WellFormedCall(call) && PlainName(name)
    requires WorkOf(call, t).ok
    ensures call.draw(0).Some? && LoadServer(WorkOf(call, t).tree) == Some(call.draw(0).value.pair)
    ensures LoadPeer(WorkOf(call, t).tree, name) == LoadPeer(t, name)
  {
    var pair := DrawnPair(call.draw, 0).value;
    var w := WriteServerRotated(Begin(t), pair);
    assert WorkOf(call, t) == RenderPhones(call.config, w, call.config.peers);
    hide PlainName, WriteServerRotated, RenderPhones, LoadPeer, LoadServer, Honest;
    RotatedServer(t, name, pair);
    RenderingKeepsKeys(t, call.config, w, call.config.peers, name);
  }

  lemma KeyFilesDiffer(name: string)
    ensures PeerPath(name, PublicKey) != PeerPath(name, PresharedKey)
    ensures PeerPath(name, PublicKey) != PeerPath(name, PrivateKey)
    ensures PeerPath(name, PresharedKey) != PeerPath(name, PrivateKey)
  {
    var d := |PeerDirectory(name)|;
    assert PeerPath(name, PrivateKey)[d..] == PrivateKey && PeerPath(name, PublicKey)[d..] == PublicKey;
    assert PeerPath(name, PresharedKey)[d..] == PresharedKey;
    assert PrivateKey[1] == 'r' && PublicKey[1] == 'u' && PrivateKey[2] == 'i' && PresharedKey[2] == 'e';
    assert PresharedKey[1] == 'r';
  }

  lemma {:induction false} RemovedAll(w: Work, paths: seq<string>, path: string)
    requires w.ok
    ensures path in paths ==> !Exists(RemoveAll(w, paths).tree, path)
    ensures Exists(RemoveAll(w, paths).tree, path) ==> Exists(w.tree, path)
    decreases |paths|
  {
    RemoveAllGoesOn(w, paths);
    if paths != [] {
      var last := |paths| - 1;
      RemoveAllGoesOn(w, paths[..last]);
      RemovedAll(w, paths[..last], path);
      assert paths == paths[..last] + [paths[last]];
    }
  }

  /** A completed pruning leaves nothing of an undeclared child, and names it; it adds
    nothing, and what is itself no directory it has not met. */
  lemma {:induction false} PruningDone(
    c: KeyConfig, w: Work, children: seq<string>, files: string -> seq<string>, path: string, child: string)
    requires w.ok && PruneChildren(c, w, children, files).ok
    ensures Exists(PruneChildren(c, w, children, files).tree, path) ==> Exists(w.tree, path)
    ensures child in PruneChildren(c, w, children, files).names <==>
      child in w.names || (child in children && child !in c.peers)
    ensures child in children && child !in c.peers && path in files(child) ==>
      !Exists(PruneChildren(c, w, children, files).tree, path)
    ensures child in children && child !in c.peers && path == PeersRoot + child
            && (forall other :: other in children ==> path !in files(other)) ==>
      !Exists(w.tree, path)
    decreases |children|
  {
    hide RemoveAll;
    if children != [] {
      var n := |children| - 1;
      var before := PruneChildren(c, w, children[..n], files);
      assert before.ok;
      PruningDone(c, w, children[..n], files, path, child);
      RemovedAll(before, files(children[n]), path);
      RemoveAllGoesOn(before, files(children[n]));
      assert children == children[..n] + [children[n]];
      if path == PeersRoot + children[n] && children[n] !in c.peers
         && forall other :: other in children ==> path !in files(other) {
        PruneSpares(c, w, children[..n], files, path);
      }
    }
  }

  /** Files that no listing shows stay. */
  lemma {:induction false} PruneSpares(
    c: KeyConfig, w: Work, children: seq<string>, files: string -> seq<string>, path: string)
    requires forall other :: other in children ==> path !in files(other)
    ensures Exists(PruneChildren(c, w, children, files).tree, path) == Exists(w.tree, path)
    decreases |children|
  {
    hide RemoveAll;
    if children != [] {
      var n := |children| - 1;
      assert children == children[..n] + [children[n]];
      PruneSpares(c, w, children[..n], files, path);
      RemoveAllSpares(PruneChildren(c, w, children[..n], files), files(children[n]), path);
    }
  }

  lemma {:induction false} RemoveAllSpares(w: Work, paths: seq<string>, path: string)
    requires path !in paths
    ensures Exists(RemoveAll(w, paths).tree, path) == Exists(w.tree, path)
    decreases |paths|
  {
    if paths != [] {
      RemoveAllSpares(w, paths[..|paths| - 1], path);
    }
  }

  /** After a pruning call, every file below `peers` belongs to a declared peer; and the
    call publishes exactly when an undeclared child was listed. */
  lemma {:induction false} PruningCallRemovesOrphans(call: Call, t: Tree)
    requires call.Pruning? && WellFormedCall(call) && WorkOf(call, t).ok
    ensures forall path :: Exists(WorkOf(call, t).tree, path) && StartsWith(path, PeersRoot) ==>
      Child(path) in call.config.peers
    ensures RequestOf(call).value.publishIf(ResultOf(call, WorkOf(call, t))) <==>
      exists child :: child in call.listing(t).children && child !in call.config.peers
  {
    var c, peers := call.config, call.listing(t);
    var w := WorkOf(call, t);
    assert Lists(peers, t);
    forall path | Exists(w.tree, path) && StartsWith(path, PeersRoot) ensures Child(path) in c.peers {
      PruningDone(c, Begin(t), peers.children, peers.files, path, Child(path));
      PathOfChild(path);
      assert ListsBelow(peers.files(Child(path)), t, Child(path));
      if path == PeersRoot + Child(path) {
        forall other | other in peers.children ensures path !in peers.files(other) {
          assert ListsBelow(peers.files(other), t, other);
          DirectChildIsNoFileBelow(other, path);
        }
      }
    }
    forall child ensures child in w.names <==> child in peers.children && child !in c.peers {
      PruningDone(c, Begin(t), peers.children, peers.files, "", child);
    }
    SortedSetAscends(w.names);
    hide PruneChildren, Lists;
    if w.names != [] {
      assert w.names[0] in SortedSet(w.names);
    }
  }

  lemma DirectChildIsNoFileBelow(child: string, path: string)
    requires '/' !in child && StartsWith(path, PeersRoot) && path == PeersRoot + Child(path)
    ensures !StartsWith(path, PeerDirectory(child))
  {
    if StartsWith(path, PeerDirectory(child)) {
      ChildOfPeerPath(child, path);
    }
  }

  // ------------------------------------------------------- when a call goes through

  lemma SameTextsSameKeys(t: Tree, t': Tree, name: string)
    requires Text(t', ServerPath(PrivateKey)) == Text(t, ServerPath(PrivateKey))
    requires Text(t', ServerPath(PublicKey)) == Text(t, ServerPath(PublicKey))
    requires Text(t', PeerPath(name, PrivateKey)) == Text(t, PeerPath(name, PrivateKey))
    requires Text(t', PeerPath(name, PublicKey)) == Text(t, PeerPath(name, PublicKey))
    requires Text(t', PeerPath(name, PresharedKey)) == Text(t, PeerPath(name, PresharedKey))
    ensures LoadServer(t') == LoadServer(t) && LoadPeer(t', name) == LoadPeer(t, name)
  {
    hide ValidKey, Strip, PeerPath, ServerPath, Text;
  }

  lemma RenderedPathsDiffer(one: string, name: string)
    requires PlainName(one) && PlainName(name)
    ensures PeerPath(one, PhoneConfig) != PeerPath(one, Fingerprint)
    ensures one != name ==> NotRendered(PeerPath(name, PhoneConfig), [one]) && NotRendered(PeerPath(name, Fingerprint), [one])
  {
    assert PeerPath(one, PhoneConfig)[|PeerDirectory(one)|..] == PhoneConfig;
    assert PeerPath(one, Fingerprint)[|PeerDirectory(one)|..] == Fingerprint;
    assert PhoneConfig[0] == 'p' && Fingerprint[0] == 'f';
    if one != name {
      PeerPathIsBelow(name, PhoneConfig);
      PeerPathIsBelow(name, Fingerprint);
      OwnFilesAreOutside(PeerPath(name, PhoneConfig), name, [one]);
      OwnFilesAreOutside(PeerPath(name, Fingerprint), name, [one]);
    }
  }

  /** Rendering one peer works when its keys load, keeps all keys and the others' phone
    configurations, and makes this one current. */
  lemma OneRendered(base: Tree, c: KeyConfig, w: Work, one: string, server: KeyPair, name: string)
    requires Honest(base, w) && w.ok && LoadServer(w.tree) == Some(server) && PlainName(one) && PlainName(name)
    ensures var after := RenderPhone(c, w, one, server);
      && Honest(base, after)
      && LoadServer(after.tree) == LoadServer(w.tree) && LoadPeer(after.tree, name) == LoadPeer(w.tree, name)
      && (after.ok <==> LoadPeer(w.tree, one).Some?)
      && (name != one && PhoneIsCurrent(c, w.tree, name) ==> PhoneIsCurrent(c, after.tree, name))
      && (after.ok && name == one ==> PhoneIsCurrent(c, after.tree, name))
  {
    var after := RenderPhone(c, w, one, server);
    RenderPhoneKeepsKeys(base, c, w, one, server, name);
    if name == one {
      RenderedPathsDiffer(one, name);
      hide LoadServer, LoadPeer, PeerPath, Honest, NotRendered, PlainName;
    } else {
      assert after.ok <==> LoadPeer(w.tree, one).Some? by { hide LoadPeer, PeerPath; }
      hide RenderPhone;
      OtherPhoneStays(base, c, w, one, server, name);
      hide LoadServer, LoadPeer, Artifacts, PeerPath, Honest, PlainName;
    }
  }

  lemma OtherPhoneStays(base: Tree, c: KeyConfig, w: Work, one: string, server: KeyPair, name: string)
    requires Honest(base, w) && PlainName(one) && PlainName(name) && name != one
    ensures var after := RenderPhone(c, w, one, server).tree;
      && Text(after, PeerPath(name, PhoneConfig)) == Text(w.tree, PeerPath(name, PhoneConfig))
      && Text(after, PeerPath(name, Fingerprint)) == Text(w.tree, PeerPath(name, Fingerprint))
  {
    RenderedPathsDiffer(one, name);
    assert [one][0] == one;
    hide Kept, RenderPhone, PeerPath, Honest, PlainName, Text;
    forall file | file in {PhoneConfig, Fingerprint}
      ensures Text(RenderPhone(c, w, one, server).tree, PeerPath(name, file)) == Text(w.tree, PeerPath(name, file))
    {
      RenderPhoneFrame(base, c, w, one, server, PeerPath(name, file));
      SameText(w.tree, RenderPhone(c, w, one, server).tree, PeerPath(name, file));
    }
  }

  lemma RenderPhoneKeepsKeys(base: Tree, c: KeyConfig, w: Work, one: string, server: KeyPair, name: string)
    requires Honest(base, w) && PlainName(one) && PlainName(name)
    ensures var after := RenderPhone(c, w, one, server);
      && Honest(base, after)
      && LoadServer(after.tree) == LoadServer(w.tree) && LoadPeer(after.tree, name) == LoadPeer(w.tree, name)
  {
    var after := RenderPhone(c, w, one, server);
    var paths := [ServerPath(PrivateKey), ServerPath(PublicKey),
                  PeerPath(name, PrivateKey), PeerPath(name, PublicKey), PeerPath(name, PresharedKey)];
    RenderPhoneFrame(base, c, w, one, server, "");
    hide Honest, RenderPhone, PlainName, Text, Kept;
    forall i | 0 <= i < 5 ensures Text(after.tree, paths[i]) == Text(w.tree, paths[i]) {
      assert IsKeyFile(paths[i]) || IsPeerKeyFile(paths[i], name);
      KeyFilesAreNotRendered(paths[i], name, [one]);
      assert [one][0] == one;
      RenderPhoneFrame(base, c, w, one, server, paths[i]);
      SameText(w.tree, after.tree, paths[i]);
    }
    assert Text(after.tree, paths[0]) == Text(w.tree, paths[0]) && Text(after.tree, paths[1]) == Text(w.tree, paths[1]);
    assert Text(after.tree, paths[2]) == Text(w.tree, paths[2]) && Text(after.tree, paths[3]) == Text(w.tree, paths[3]);
    assert Text(after.tree, paths[4]) == Text(w.tree, paths[4]);
    SameTextsSameKeys(w.tree, after.tree, name);
  }

  predicate PeersLoad(t: Tree, names: seq<string>) {
    forall i :: 0 <= i < |names| ==> LoadPeer(t, names[i]).Some?
  }

  /** Rendering works exactly when every key it reads is there, and then leaves current
    what it rendered. */
  lemma {:induction false} AllRendered(
    base: Tree, c: KeyConfig, w: Work, selected: seq<string>, server: KeyPair, name: string)
    requires Honest(base, w) && w.ok && LoadServer(w.tree) == Some(server) && AllPlain(selected) && PlainName(name)
    ensures var after := RenderPhonesWith(c, w, selected, server);
      && Honest(base, after)
      && (after.ok <==> PeersLoad(w.tree, selected))
      && LoadServer(after.tree) == LoadServer(w.tree) && LoadPeer(after.tree, name) == LoadPeer(w.tree, name)
      && (after.ok && name in selected ==> PhoneIsCurrent(c, after.tree, name))
    decreases |selected|
  {
    hide Honest, LoadServer, LoadPeer, PhoneIsCurrent, PlainName, RenderPhone;
    if selected != [] {
      var last := |selected| - 1;
      var before := RenderPhonesWith(c, w, selected[..last], server);
      assert selected == selected[..last] + [selected[last]];
      AllRendered(base, c, w, selected[..last], server, name);
      AllRendered(base, c, w, selected[..last], server, selected[last]);
      if before.ok {
        OneRendered(base, c, before, selected[last], server, name);
      }
      assert PeersLoad(w.tree, selected) <==> PeersLoad(w.tree, selected[..last]) && LoadPeer(w.tree, selected[last]).Some?;
    }
  }

  /** What the keys must be for a call to go through: those it reads are there and valid,
    and those it needs are drawn and valid; for pruning, no undeclared child of `peers`
    is anything but a directory. */
  ghost predicate CanWork(call: Call, t: Tree) {
    match call
    case Generating(c, _, draw) =>
      && Selected(call).Some?
      && (if NoServerKeys(t) then ValidPair(draw, 0) else LoadServer(t).Some?)
      && forall i :: 0 <= i < |Selected(call).value| ==>
           if NoPeerKeys(t, Selected(call).value[i]) then ValidSecrets(draw, i + 1)
           else LoadPeer(t, Selected(call).value[i]).Some?
    case Regenerating(c, name) => LoadServer(t).Some? && LoadPeer(t, name).Some?
    case RotatingPeer(c, name, draw, _) => ValidSecrets(draw, 0) && LoadServer(t).Some?
    case RotatingServer(c, draw, _) => ValidPair(draw, 0) && PeersLoad(t, c.peers)
    case Pruning(c, listing) =>
      forall child :: child in listing(t).children && child !in c.peers ==> !Exists(t, PeersRoot + child)
  }

  predicate ValidPair(draw: Draw, i: nat) {
    draw(i).Some? && ValidKey(draw(i).value.pair.privateKey) && ValidKey(draw(i).value.pair.publicKey)
  }

  predicate ValidSecrets(draw: Draw, i: nat) {
    ValidPair(draw, i) && ValidKey(draw(i).value.preshared)
  }

  lemma RenderingWorks(base: Tree, c: KeyConfig, w: Work, selected: seq<string>)
    requires Honest(base, w) && w.ok && AllPlain(selected)
    ensures var after := RenderPhones(c, w, selected);
      && (after.ok <==> LoadServer(w.tree).Some? && PeersLoad(w.tree, selected))
      && (after.ok ==> ValidPhones(c, after.tree, selected))
  {
    hide Honest, LoadServer, LoadPeer, PhoneIsCurrent, RenderPhonesWith;
    assert PlainName("a");
    hide PlainName;
    if LoadServer(w.tree).Some? {
      var server := LoadServer(w.tree).value;
      AllRendered(base, c, w, selected, server, "a");
      forall i | 0 <= i < |selected| && RenderPhones(c, w, selected).ok
        ensures PhoneIsCurrent(c, RenderPhones(c, w, selected).tree, selected[i])
      {
        AllRendered(base, c, w, selected, server, selected[i]);
      }
    }
  }

  /** The peers' part of generation works exactly when each peer has its keys or can
    be given some. */
  lemma {:induction false} PeersCanBeGenerated(base: Tree, w: Work, draw: Draw, selected: seq<string>)
    requires Honest(base, w) && w.ok && AllPlain(selected) && AllDifferent(selected)
    ensures MissingPeers(w, draw, selected).ok && PeersLoad(MissingPeers(w, draw, selected).tree, selected)
      <==> forall i :: 0 <= i < |selected| ==> !CannotHaveKeys(w.tree, draw, i, selected[i])
    decreases |selected|
  {
    hide Honest, LoadPeer, PlainName, Drawn, PeerStatus, MissingPeers;
    var after := MissingPeers(w, draw, selected);
    if after.ok {
      forall i | 0 <= i < |selected|
        ensures LoadPeer(after.tree, selected[i]).Some? <==> !CannotHaveKeys(w.tree, draw, i, selected[i])
      {
        MissingPeersInstall(base, w, draw, selected, selected[i]);
      }
    } else {
      FailingPeer(base, w, draw, selected);
    }
  }

  /** The keys of this peer are bad, or missing and cannot be drawn. */
  predicate CannotHaveKeys(t: Tree, draw: Draw, i: nat, name: string) {
    if PeerStatus(t, name) == Missing then Drawn(draw, i + 1).None? else LoadPeer(t, name).None?
  }

  lemma {:induction false} FailingPeer(base: Tree, w: Work, draw: Draw, selected: seq<string>)
    requires Honest(base, w) && w.ok && AllPlain(selected) && AllDifferent(selected)
    requires !MissingPeers(w, draw, selected).ok
    ensures exists i :: 0 <= i < |selected| && CannotHaveKeys(w.tree, draw, i, selected[i])
    decreases |selected|
  {
    hide Honest, LoadPeer, PlainName, Drawn, PeerStatus;
    if selected != [] {
      var last := |selected| - 1;
      var before := MissingPeers(w, draw, selected[..last]);
      if before.ok {
        assert selected[last] !in selected[..last];
        MissingPeersInstall(base, w, draw, selected[..last], selected[last]);
        PartialDoesNotLoad(w.tree, selected[last]);
        assert CannotHaveKeys(w.tree, draw, last, selected[last]);
      } else {
        FailingPeer(base, w, draw, selected[..last]);
        var i :| 0 <= i < last && CannotHaveKeys(w.tree, draw, i, selected[..last][i]);
        assert selected[..last][i] == selected[i];
      }
    }
  }

  lemma PartialDoesNotLoad(t: Tree, name: string)
    ensures PeerStatus(t, name) == Partial ==> LoadPeer(t, name).None?
    ensures ServerStatus(t) == Partial ==> LoadServer(t).None?
  {
    hide ValidKey, Strip, PeerPath;
  }

  /** The server's part of generation. */
  lemma ServerCanBeGenerated(t: Tree, draw: Draw)
    ensures var served := MissingServer(Begin(t), draw);
      && Honest(t, served)
      && (served.ok && LoadServer(served.tree).Some? <==>
            if NoServerKeys(t) then ValidPair(draw, 0) else LoadServer(t).Some?)
  {
    var served := MissingServer(Begin(t), draw);
    BeginTree(t);
    MissingMeans(t, "");
    PartialDoesNotLoad(t, "");
    DrawnMeans(draw, 0);
    PlainLetter();
    assert Honest(t, Begin(t));
    hide LoadPeer, LoadServer, PeerStatus, ServerStatus, Honest, PlainName, Begin, NoServerKeys, WriteServerFirst, DrawnPair,
      ValidPair;
    MissingServerFrame(t, Begin(t), draw, "");
    if served.ok {
      ServerInstalls(t, draw, "a");
    }
  }

  lemma OneCanBeGenerated(t: Tree, draw: Draw, i: nat, name: string)
    requires PlainName(name) && MissingServer(Begin(t), draw).ok
    ensures !CannotHaveKeys(MissingServer(Begin(t), draw).tree, draw, i, name) <==>
      if NoPeerKeys(t, name) then ValidSecrets(draw, i + 1) else LoadPeer(t, name).Some?
  {
    hide LoadPeer, LoadServer, PeerStatus, ServerStatus, Honest, MissingServer, PlainName, Begin, NoPeerKeys, Drawn,
      ValidSecrets;
    ServerInstalls(t, draw, name);
    MissingMeans(t, name);
    DrawnMeans(draw, i + 1);
  }

  /** The peers' part, after the server's. */
  lemma SelectedCanBeGenerated(t: Tree, draw: Draw, selected: seq<string>)
    requires AllPlain(selected) && AllDifferent(selected) && MissingServer(Begin(t), draw).ok
    ensures var served := MissingServer(Begin(t), draw);
      var keyed := MissingPeers(served, draw, selected);
      && LoadServer(keyed.tree) == LoadServer(served.tree)
      && (keyed.ok && PeersLoad(keyed.tree, selected) <==>
            forall i :: 0 <= i < |selected| ==>
              if NoPeerKeys(t, selected[i]) then ValidSecrets(draw, i + 1) else LoadPeer(t, selected[i]).Some?)
  {
    var served := MissingServer(Begin(t), draw);
    var keyed := MissingPeers(served, draw, selected);
    hide LoadPeer, LoadServer, PeerStatus, ServerStatus, Honest, MissingPeers, MissingServer, PlainName, Begin, NoPeerKeys,
      Drawn, ValidSecrets, CannotHaveKeys, AllDifferent;
    assert Honest(t, served) by { ServerCanBeGenerated(t, draw); }
    PeersCanBeGenerated(t, served, draw, selected);
    ServerKeysStay(t, served, draw, selected);
    forall i | 0 <= i < |selected|
      ensures !CannotHaveKeys(served.tree, draw, i, selected[i]) <==>
        if NoPeerKeys(t, selected[i]) then ValidSecrets(draw, i + 1) else LoadPeer(t, selected[i]).Some?
    {
      OneCanBeGenerated(t, draw, i, selected[i]);
    }
    hide PeersLoad, AllPlain;
  }

  lemma GenerationWorks(call: Call, t: Tree)
    requires call.Generating? && WellFormedCall(call) && Selected(call).Some? && AllDifferent(Selected(call).value)
    ensures WorkOf(call, t).ok <==> CanWork(call, t)
    ensures WorkOf(call, t).ok ==> Validates(call, WorkOf(call, t).tree)
  {
    var c, draw, selected := call.config, call.draw, Selected(call).value;
    var served := MissingServer(Begin(t), draw);
    var keyed := MissingPeers(served, draw, selected);
    SelectedArePlain(call);
    hide WellFormedCall, LoadPeer, LoadServer, Honest, MissingPeers, MissingServer, RenderPhones, PlainName, Begin,
      NoPeerKeys, NoServerKeys, ValidPhones, ValidPair, ValidSecrets;
    ServerCanBeGenerated(t, draw);
    if served.ok {
      SelectedCanBeGenerated(t, draw, selected);
      if keyed.ok {
        MissingPeersHonest(t, served, draw, selected);
        RenderingWorks(t, c, keyed, selected);
      }
    }
  }

  lemma MissingPeersHonest(base: Tree, w: Work, draw: Draw, selected: seq<string>)
    requires Honest(base, w)
    ensures Honest(base, MissingPeers(w, draw, selected))
  {
    hide Honest;
    MissingPeersFrame(base, w, draw, selected, "");
  }

  lemma PlainLetter()
    ensures PlainName("a")
  {
  }

  lemma DrawnMeans(draw: Draw, i: nat)
    ensures Drawn(draw, i).Some? <==> ValidSecrets(draw, i)
    ensures DrawnPair(draw, i).Some? <==> ValidPair(draw, i)
  {
    hide ValidKey;
  }

  lemma {:induction false} PruningWorks(
    c: KeyConfig, w: Work, children: seq<string>, files: string -> seq<string>)
    requires w.ok
    requires forall child, other :: child in children && other in children ==> PeersRoot + child !in files(other)
    ensures PruneChildren(c, w, children, files).ok <==>
      forall child :: child in children && child !in c.peers ==> !Exists(w.tree, PeersRoot + child)
    decreases |children|
  {
    hide RemoveAll, Exists;
    if children != [] {
      var n := |children| - 1;
      var before := PruneChildren(c, w, children[..n], files);
      assert children == children[..n] + [children[n]];
      PruningWorks(c, w, children[..n], files);
      PruneSpares(c, w, children[..n], files, PeersRoot + children[n]);
      RemoveAllGoesOn(before, files(children[n]));
    }
  }

  /** A call goes through exactly when it can; and what it has then made of the keys is
    valid, so that validation refuses nothing but a pruned tree with keys that were bad
    before. */
  lemma {:induction false} CallsWorkWhenTheyCan(call: Call, t: Tree)
    requires WellFormedCall(call) && RequestOf(call).Some? && AllDifferent(call.config.peers)
    ensures WorkOf(call, t).ok <==> CanWork(call, t)
    ensures WorkOf(call, t).ok && !call.Pruning? ==> Validates(call, WorkOf(call, t).tree)
  {
    BeginTree(t);
    assert Honest(t, Begin(t));
    hide LoadPeer, LoadServer, PlainName, Honest, GenerateMissing, RenderPhones, ValidPhones, Begin, Lists, Drawn, DrawnPair,
      WritePeerRotated, WriteServerRotated, ValidPair, ValidSecrets, NoPeerKeys, NoServerKeys;
    match call
    case Generating(c, _, draw) =>
      GenerationWorks(call, t);
    case Regenerating(c, name) =>
      RenderingWorks(t, c, Begin(t), [name]);
      assert [name][0] == name;
      assert PeersLoad(t, [name]) <==> LoadPeer(t, name).Some?;
    case RotatingPeer(c, name, draw, _) =>
      DrawnMeans(draw, 0);
      if Drawn(draw, 0).Some? {
        PeerRotationWorks(call, t);
      }
    case RotatingServer(c, draw, _) =>
      DrawnMeans(draw, 0);
      if DrawnPair(draw, 0).Some? {
        ServerRotationWorks(call, t);
      }
    case Pruning(c, listing) =>
      ListedPathsAreDeeper(listing(t), t);
      PruningWorks(c, Begin(t), listing(t).children, listing(t).files);
  }

  lemma PeerRotationWorks(call: Call, t: Tree)
    requires call.RotatingPeer? && WellFormedCall(call) && RequestOf(call).Some? && Drawn(call.draw, 0).Some?
    ensures WorkOf(call, t).ok <==> LoadServer(t).Some?
    ensures WorkOf(call, t).ok ==> ValidPhones(call.config, WorkOf(call, t).tree, [call.name])
  {
    var keys := Drawn(call.draw, 0).value;
    var w := WritePeerRotated(Begin(t), call.name, keys);
    assert PlainName(call.name);
    assert WorkOf(call, t) == RenderPhones(call.config, w, [call.name]);
    hide PlainName, WritePeerRotated, RenderPhones, LoadPeer, LoadServer, Honest, ValidPhones;
    RotatedPeer(t, call.name, keys);
    RenderingWorks(t, call.config, w, [call.name]);
  }

  lemma ServerRotationWorks(call: Call, t: Tree)
    requires call.RotatingServer? && WellFormedCall(call) && DrawnPair(call.draw, 0).Some?
    ensures WorkOf(call, t).ok <==> PeersLoad(t, call.config.peers)
    ensures WorkOf(call, t).ok ==> ValidPhones(call.config, WorkOf(call, t).tree, call.config.peers)
  {
    var pair, peers := DrawnPair(call.draw, 0).value, call.config.peers;
    var w := WriteServerRotated(Begin(t), pair);
    assert WorkOf(call, t) == RenderPhones(call.config, w, peers);
    assert AllPlain(peers);
    hide PlainName, WriteServerRotated, RenderPhones, LoadPeer, LoadServer, Honest, ValidPhones;
    RotatedServer(t, "", pair);
    forall i | 0 <= i < |peers| ensures LoadPeer(w.tree, peers[i]) == LoadPeer(t, peers[i]) {
      RotatedServer(t, peers[i], pair);
    }
    RenderingWorks(t, call.config, w, peers);
  }

  lemma ListedPathsAreDeeper(peers: Directory, t: Tree)
    requires Lists(peers, t)
    ensures forall child, other :: child in peers.children && other in peers.children ==>
      PeersRoot + child !in peers.files(other)
  {
    forall child, other | child in peers.children && other in peers.children
      ensures PeersRoot + child !in peers.files(other)
    {
      assert ListsBelow(peers.files(other), t, other);
      PlainIsUpto(child);
      assert (PeersRoot + child)[|PeersRoot|..] == child;
      DirectChildIsNoFileBelow(other, PeersRoot + child);
    }
  }

  lemma {:induction false} PlainIsUpto(text: string)
    requires '/' !in text
    ensures Upto(text) == text
    decreases |text|
  {
    if text != "" {
      assert text[0] in text;
      PlainIsUpto(text[1..]);
    }
  }

  // --------------------------------------------------------- what a call may change

  /** The files a call may write or remove. */
  ghost predicate MayChange(call: Call, path: string) {
    || ((call.Generating? || call.RotatingServer?) && path in {"server/private.key", "server/public.key"})
    || ((call.Generating? || call.RotatingPeer?)
          && exists name :: Concerns(call, name) && StartsWith(path, "peers/" + name + "/"))
    || (exists name :: Concerns(call, name)
          && path in {"peers/" + name + "/phone.conf", "peers/" + name + "/fingerprint.json"})
    || (call.Pruning? && StartsWith(path, "peers/") && Child(path) !in call.config.peers)
  }

  /** No call changes anything else. */
  lemma {:induction false} CallsChangeNothingElse(call: Call, t: Tree, path: string)
    requires WellFormedCall(call) && RequestOf(call).Some? && !MayChange(call, path)
    ensures Kept(t, WorkOf(call, t).tree, path)
  {
    assert Honest(t, Begin(t)) && Begin(t).tree == t;
    SelectedIffConcerned(call);
    if call.Pruning? {
      hide Honest, Begin;
      var peers := call.listing(t);
      SparedByPruning(call.config, peers, t, path);
      PruneFrame(t, call.config, Begin(t), peers.children, peers.files, path);
    } else {
      var selected := Selected(call).value;
      SparedPath(call, path, selected);
      hide Honest, GenerateMissing, RenderPhones, RotatePeer, RotateServer, PruneChildren, Begin, NotRendered, Outside, MayChange;
      match call
      case Generating(c, _, draw) => GenerateFrame(c, t, draw, selected, path);
      case Regenerating(c, n) => RenderPhonesFrame(t, c, Begin(t), [n], path);
      case RotatingPeer(c, n, draw, _) => RotatePeerFrame(c, t, draw, n, path);
      case RotatingServer(c, draw, _) => RotateServerFrame(c, t, draw, path);
    }
  }

  lemma SparedPath(call: Call, path: string, names: seq<string>)
    requires !MayChange(call, path) && forall i :: 0 <= i < |names| ==> Concerns(call, names[i])
    ensures NotRendered(path, names)
    ensures call.Generating? || call.RotatingServer? ==> path !in {ServerPath(PrivateKey), ServerPath(PublicKey)}
    ensures call.Generating? ==> Outside(path, names)
    ensures call.RotatingPeer? ==> !StartsWith(path, PeerDirectory(call.name))
  {
    assert "server/" + "private.key" == "server/private.key" && "server/" + "public.key" == "server/public.key";
    forall i | 0 <= i < |names|
      ensures path != PeerPath(names[i], PhoneConfig) && path != PeerPath(names[i], Fingerprint)
      ensures call.Generating? ==> !StartsWith(path, PeerDirectory(names[i]))
    {
      assert Concerns(call, names[i]);
      assert PeerPath(names[i], PhoneConfig) == "peers/" + names[i] + "/phone.conf";
      assert PeerPath(names[i], Fingerprint) == "peers/" + names[i] + "/fingerprint.json";
    }
    assert call.RotatingPeer? ==> Concerns(call, call.name);
  }
}
