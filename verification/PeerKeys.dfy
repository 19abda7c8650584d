/** The key mutations of src/shuttle_gate/keys.py, each run on a staged generation. */
module PeerKeys {
  import opened Wrappers
  import opened StateDisk
  import opened KeyFiles

  /** A mutation under way: the files written so far, the names it created or
    removed, and whether it has raised. */
  datatype Work = Work(writes: seq<Write>, names: seq<string>, tree: Tree, ok: bool)

  function Begin(t: Tree): Work {
    Work([], [], t, true)
  }

  /** `atomic_write`, unless an exception came before. */
  function Store(w: Work, path: string, bytes: string): Work {
    if !w.ok then w
    else w.(writes := w.writes + [Put(path, bytes)], tree := Apply(Put(path, bytes), w.tree))
  }

  function Remove(w: Work, path: string): Work {
    if !w.ok then w
    else w.(writes := w.writes + [Delete(path)], tree := Apply(Delete(path), w.tree))
  }

  function Note(w: Work, name: string): Work {
    if !w.ok then w else w.(names := w.names + [name])
  }

  function Raise(w: Work): Work {
    w.(ok := false)
  }

  /** Fresh keys: the i-th set the runner generates, or None when that fails. */
  type Draw = nat -> Option<PeerSecrets>

  predicate ValidKeys(k: PeerSecrets) {
    ValidKey(k.pair.privateKey) && ValidKey(k.pair.publicKey) && ValidKey(k.preshared)
  }

  /** Generated keys are checked before they are used. */
  function Drawn(draw: Draw, i: nat): Option<PeerSecrets> {
    if draw(i).Some? && ValidKeys(draw(i).value) then draw(i) else None
  }

  /** For the server a pair is generated alone. */
  function DrawnPair(draw: Draw, i: nat): Option<KeyPair> {
    if draw(i).Some? && ValidKey(draw(i).value.pair.privateKey) && ValidKey(draw(i).value.pair.publicKey)
    then Some(draw(i).value.pair)
    else None
  }

  // --------------------------------------------------------- what each step does

  function WriteServerFirst(w: Work, pair: KeyPair): Work {
    Store(Store(w, ServerPath(PrivateKey), Line(pair.privateKey)), ServerPath(PublicKey), Line(pair.publicKey))
  }

  /** The server part of `_generate_missing_keys` (lines 117 to 124). */
  function MissingServer(w: Work, draw: Draw): Work {
    match ServerStatus(w.tree)
    case Complete => w
    case Partial => Raise(w)
    case Missing => if DrawnPair(draw, 0).None? then Raise(w)
                    else Note(WriteServerFirst(w, DrawnPair(draw, 0).value), "server")
  }

  function WritePeerFirst(w: Work, name: string, keys: PeerSecrets): Work {
    Store(Store(Store(w,
      PeerPath(name, PrivateKey), Line(keys.pair.privateKey)),
      PeerPath(name, PublicKey), Line(keys.pair.publicKey)),
      PeerPath(name, PresharedKey), Line(keys.preshared))
  }

  /** One round of its loop over the peers (lines 126 to 137). */
  function MissingPeer(w: Work, draw: Draw, i: nat, name: string): Work {
    match PeerStatus(w.tree, name)
    case Complete => w
    case Partial => Raise(w)
    case Missing => if Drawn(draw, i).None? then Raise(w)
                    else Note(WritePeerFirst(w, name, Drawn(draw, i).value), name)
  }

  function MissingPeers(w: Work, draw: Draw, selected: seq<string>): Work {
    if selected == [] then w
    else
      var last := |selected| - 1;
      var before := MissingPeers(w, draw, selected[..last]);
      if before.ok then MissingPeer(before, draw, |selected|, selected[last]) else before
  }

  /** One peer of `_render_phone_configs` (line 247). */
  function RenderPhone(c: KeyConfig, w: Work, name: string, server: KeyPair): Work {
    var texts := Artifacts(c, w.tree, name, server);
    if texts.None? then Raise(w)
    else Store(Store(w, PeerPath(name, PhoneConfig), texts.value.0), PeerPath(name, Fingerprint), texts.value.1)
  }

  function RenderPhonesWith(c: KeyConfig, w: Work, selected: seq<string>, server: KeyPair): Work {
    if selected == [] then w
    else
      var last := |selected| - 1;
      var before := RenderPhonesWith(c, w, selected[..last], server);
      if before.ok then RenderPhone(c, before, selected[last], server) else before
  }

  function RenderPhones(c: KeyConfig, w: Work, selected: seq<string>): Work {
    if !w.ok then w
    else if LoadServer(w.tree).None? then Raise(w)
    else RenderPhonesWith(c, w, selected, LoadServer(w.tree).value)
  }

  predicate AllLoad(t: Tree, selected: seq<string>) {
    LoadServer(t).Some? && forall i :: 0 <= i < |selected| ==> LoadPeer(t, selected[i]).Some?
  }

  /** `_generate_missing_keys` (line 107) */
  function GenerateMissing(c: KeyConfig, t: Tree, draw: Draw, selected: seq<string>): Work {
    var served := MissingServer(Begin(t), draw);
    var keyed := if served.ok then MissingPeers(served, draw, selected) else served;
    if !keyed.ok then keyed
    else if !AllLoad(keyed.tree, selected) then Raise(keyed)
    else RenderPhones(c, keyed, selected)
  }

  function WritePeerRotated(w: Work, name: string, keys: PeerSecrets): Work {
    Store(Store(Store(w,
      PeerPath(name, PublicKey), Line(keys.pair.publicKey)),
      PeerPath(name, PresharedKey), Line(keys.preshared)),
      PeerPath(name, PrivateKey), Line(keys.pair.privateKey))
  }

  function WriteServerRotated(w: Work, pair: KeyPair): Work {
    Store(Store(w, ServerPath(PublicKey), Line(pair.publicKey)), ServerPath(PrivateKey), Line(pair.privateKey))
  }

  /** `rotate_peer` (line 371): the public and preshared keys first. */
  function RotatePeer(c: KeyConfig, t: Tree, draw: Draw, name: string): Work {
    if Drawn(draw, 0).None? then Raise(Begin(t))
    else RenderPhones(c, WritePeerRotated(Begin(t), name, Drawn(draw, 0).value), [name])
  }

  /** `rotate_server` (line 397) */
  function RotateServer(c: KeyConfig, t: Tree, draw: Draw): Work {
    if DrawnPair(draw, 0).None? then Raise(Begin(t))
    else RenderPhones(c, WriteServerRotated(Begin(t), DrawnPair(draw, 0).value), c.peers)
  }

  /** What `peers` holds: its children as they are listed, and the files below one of
    them as `shutil.rmtree` comes upon them. */
  datatype Directory = Directory(children: seq<string>, files: string -> seq<string>)

  function RemoveAll(w: Work, paths: seq<string>): Work {
    if paths == [] then w
    else Remove(RemoveAll(w, paths[..|paths| - 1]), paths[|paths| - 1])
  }

  /** One child of `peers` (lines 420 to 426): kept when it is declared; what is not a
    directory raises. */
  function PruneChild(c: KeyConfig, w: Work, child: string, files: seq<string>): Work {
    if !w.ok || child in c.peers then w
    else if Exists(w.tree, PeersRoot + child) then Raise(w)
    else Note(RemoveAll(w, files), child)
  }

  /** `prune_orphaned_peers` (line 414) */
  function PruneChildren(c: KeyConfig, w: Work, children: seq<string>, files: string -> seq<string>): Work {
    if children == [] then w
    else
      var last := children[|children| - 1];
      PruneChild(c, PruneChildren(c, w, children[..|children| - 1], files), last, files(last))
  }

  // ------------------------------------------- the mutations on a real snapshot

  /** A staged generation that a mutation writes into. */
  class Snapshot {
    var tree: Tree
    var names: seq<string>
    ghost const base: Tree
    ghost var writes: seq<Write>

    ghost predicate Valid()
      reads this
    {
      tree == ApplyAll(writes, base)
    }

    ghost function Now(): Work
      reads this
    {
      Work(writes, names, tree, true)
    }

    constructor (t: Tree)
      ensures Valid() && base == t && Now() == Begin(t)
    {
      tree := t;
      base := t;
      writes, names := [], [];
    }

    method AtomicWrite(path: string, bytes: string)
      requires Valid()
      modifies this
      ensures Valid() && Now() == old(Store(Now(), path, bytes))
    {
      ApplyMore(writes, Put(path, bytes), base);
      tree := tree[Data(path) := Blob(bytes)];
      writes := writes + [Put(path, bytes)];
    }

    method Unlink(path: string)
      requires Valid()
      modifies this
      ensures Valid() && Now() == old(Remove(Now(), path))
    {
      ApplyMore(writes, Delete(path), base);
      tree := tree - {Data(path)};
      writes := writes + [Delete(path)];
    }

    /** `_generate_missing_keys` */
    method GenerateMissingKeys(c: KeyConfig, draw: Draw, selected: seq<string>) returns (ok: bool)
      requires Valid() && Now() == Begin(base)
      modifies this
      ensures Valid() && Now().(ok := ok) == GenerateMissing(c, base, draw, selected)
    {
      hide MissingPeer, RenderPhones, Valid, AllLoad, WriteServerFirst;
      ok := GenerateServer(draw);
      if !ok {
        return;
      }
      ghost var served := Now();
      for i := 0 to |selected|
        invariant Valid() && Now() == MissingPeers(served, draw, selected[..i])
      {
        MissingMore(served, draw, selected, i);
        ok := GeneratePeer(draw, i + 1, selected[i]);
        if !ok {
          MissingRaised(served, draw, selected, i + 1);
          return;
        }
      }
      assert selected[..|selected|] == selected;
      if !AllLoad(tree, selected) {
        return false;
      }
      ok := RenderPhoneConfigs(c, selected);
    }

    method GenerateServer(draw: Draw) returns (ok: bool)
      requires Valid()
      modifies this
      ensures Valid() && Now().(ok := ok) == old(MissingServer(Now(), draw))
    {
      hide Valid, DrawnPair;
      match ServerStatus(tree)
      case Complete => return true;
      case Partial => return false;
      case Missing =>
        var pair := DrawnPair(draw, 0);
        if pair.None? {
          return false;
        }
        AtomicWrite(ServerPath(PrivateKey), Line(pair.value.privateKey));
        AtomicWrite(ServerPath(PublicKey), Line(pair.value.publicKey));
        Append("server");
        return true;
    }

    method GeneratePeer(draw: Draw, i: nat, name: string) returns (ok: bool)
      requires Valid()
      modifies this
      ensures Valid() && Now().(ok := ok) == old(MissingPeer(Now(), draw, i, name))
    {
      hide Valid, Drawn;
      match PeerStatus(tree, name)
      case Complete => return true;
      case Partial => return false;
      case Missing =>
        var keys := Drawn(draw, i);
        if keys.None? {
          return false;
        }
        AtomicWrite(PeerPath(name, PrivateKey), Line(keys.value.pair.privateKey));
        AtomicWrite(PeerPath(name, PublicKey), Line(keys.value.pair.publicKey));
        AtomicWrite(PeerPath(name, PresharedKey), Line(keys.value.preshared));
        Append(name);
        return true;
    }

    /** `created.append(name)`, `removed.append(name)` */
    method Append(name: string)
      requires Valid()
      modifies this
      ensures Valid() && Now() == old(Note(Now(), name))
    {
      names := names + [name];
    }

    method ReplacePeerKeys(c: KeyConfig, draw: Draw, name: string) returns (ok: bool)
      requires Valid() && Now() == Begin(base)
      modifies this
      ensures Valid() && Now().(ok := ok) == RotatePeer(c, base, draw, name)
    {
      hide Valid, Drawn, RenderPhones;
      var keys := Drawn(draw, 0);
      if keys.None? {
        return false;
      }
      AtomicWrite(PeerPath(name, PublicKey), Line(keys.value.pair.publicKey));
      AtomicWrite(PeerPath(name, PresharedKey), Line(keys.value.preshared));
      AtomicWrite(PeerPath(name, PrivateKey), Line(keys.value.pair.privateKey));
      ok := RenderPhoneConfigs(c, [name]);
    }

    method ReplaceServerKeys(c: KeyConfig, draw: Draw) returns (ok: bool)
      requires Valid() && Now() == Begin(base)
      modifies this
      ensures Valid() && Now().(ok := ok) == RotateServer(c, base, draw)
    {
      hide Valid, DrawnPair, RenderPhones;
      var pair := DrawnPair(draw, 0);
      if pair.None? {
        return false;
      }
      AtomicWrite(ServerPath(PublicKey), Line(pair.value.publicKey));
      AtomicWrite(ServerPath(PrivateKey), Line(pair.value.privateKey));
      ok := RenderPhoneConfigs(c, c.peers);
    }

    /** `shutil.rmtree` */
    method RemoveTree(files: seq<string>)
      requires Valid()
      modifies this
      ensures Valid() && Now() == old(RemoveAll(Now(), files))
    {
      hide Valid;
      ghost var start := Now();
      for i := 0 to |files|
        invariant Valid() && Now() == RemoveAll(start, files[..i])
      {
        assert files[..i + 1][..i] == files[..i];
        Unlink(files[i]);
      }
      assert files[..|files|] == files;
    }

    /** The loop of `prune_orphaned_peers`. */
    method Prune(c: KeyConfig, peers: Directory) returns (ok: bool)
      requires Valid() && Now() == Begin(base)
      modifies this
      ensures Valid() && Now().(ok := ok) == PruneChildren(c, Begin(base), peers.children, peers.files)
    {
      hide Valid, RemoveAll;
      var children := peers.children;
      for i := 0 to |children|
        invariant Valid() && Now() == PruneChildren(c, Begin(base), children[..i], peers.files)
      {
        var child := children[i];
        assert children[..i + 1][..i] == children[..i];
        if child !in c.peers {
          if Exists(tree, PeersRoot + child) {
            PruneRaised(c, Begin(base), children, peers.files, i + 1);
            return false;
          }
          RemoveAllGoesOn(Now(), peers.files(child));
          RemoveTree(peers.files(child));
          Append(child);
        }
      }
      assert children[..|children|] == children;
      return true;
    }

    /** `_render_phone_configs` */
    method RenderPhoneConfigs(c: KeyConfig, selected: seq<string>) returns (ok: bool)
      requires Valid()
      modifies this
      ensures Valid() && Now().(ok := ok) == old(RenderPhones(c, Now(), selected))
    {
      hide RenderPhone, LoadServer, Artifacts, Valid;
      var server := LoadServer(tree);
      if server.None? {
        return false;
      }
      ghost var start := Now();
      for i := 0 to |selected|
        invariant Valid() && Now() == RenderPhonesWith(c, start, selected[..i], server.value)
      {
        RenderMore(c, start, selected, i, server.value);
        ok := RenderOne(c, selected[i], server.value);
        if !ok {
          RenderRaised(c, start, selected, i + 1, server.value);
          return;
        }
      }
      assert selected[..|selected|] == selected;
      return true;
    }

    method RenderOne(c: KeyConfig, name: string, server: KeyPair) returns (ok: bool)
      requires Valid()
      modifies this
      ensures Valid() && Now().(ok := ok) == old(RenderPhone(c, Now(), name, server))
    {
      hide Artifacts, Valid;
      var texts := Artifacts(c, tree, name, server);
      if texts.None? {
        return false;
      }
      AtomicWrite(PeerPath(name, PhoneConfig), texts.value.0);
      AtomicWrite(PeerPath(name, Fingerprint), texts.value.1);
      return true;
    }
  }

  lemma {:induction false} ApplyMore(writes: seq<Write>, w: Write, t: Tree)
    ensures ApplyAll(writes + [w], t) == Apply(w, ApplyAll(writes, t))
    decreases |writes|
  {
    if writes == [] {
      assert writes + [w] == [w];
    } else {
      assert (writes + [w])[1..] == writes[1..] + [w];
      ApplyMore(writes[1..], w, Apply(writes[0], t));
    }
  }

  lemma RenderMore(c: KeyConfig, w: Work, selected: seq<string>, i: nat, server: KeyPair)
    requires i < |selected|
    ensures var before := RenderPhonesWith(c, w, selected[..i], server);
      RenderPhonesWith(c, w, selected[..i + 1], server)
      == if before.ok then RenderPhone(c, before, selected[i], server) else before
  {
    assert selected[..i + 1][..i] == selected[..i];
  }

  lemma {:induction false} RenderRaised(c: KeyConfig, w: Work, selected: seq<string>, i: nat, server: KeyPair)
    requires i <= |selected| && !RenderPhonesWith(c, w, selected[..i], server).ok
    ensures RenderPhonesWith(c, w, selected, server) == RenderPhonesWith(c, w, selected[..i], server)
    decreases |selected| - i
  {
    hide RenderPhone;
    if i == |selected| {
      assert selected[..i] == selected;
    } else {
      RenderMore(c, w, selected, i, server);
      RenderRaised(c, w, selected, i + 1, server);
    }
  }

  lemma MissingMore(w: Work, draw: Draw, selected: seq<string>, i: nat)
    requires i < |selected|
    ensures var before := MissingPeers(w, draw, selected[..i]);
      MissingPeers(w, draw, selected[..i + 1])
      == if before.ok then MissingPeer(before, draw, i + 1, selected[i]) else before
  {
    assert selected[..i + 1][..i] == selected[..i];
  }

  lemma {:induction false} MissingRaised(w: Work, draw: Draw, selected: seq<string>, i: nat)
    requires i <= |selected| && !MissingPeers(w, draw, selected[..i]).ok
    ensures MissingPeers(w, draw, selected) == MissingPeers(w, draw, selected[..i])
    decreases |selected| - i
  {
    hide MissingPeer;
    if i == |selected| {
      assert selected[..i] == selected;
    } else {
      MissingMore(w, draw, selected, i);
      MissingRaised(w, draw, selected, i + 1);
    }
  }

  lemma {:induction false} RemoveAllGoesOn(w: Work, paths: seq<string>)
    ensures RemoveAll(w, paths).ok == w.ok && RemoveAll(w, paths).names == w.names
    decreases |paths|
  {
    if paths != [] {
      RemoveAllGoesOn(w, paths[..|paths| - 1]);
    }
  }

  lemma {:induction false} PruneRaised(
    c: KeyConfig, w: Work, children: seq<string>, files: string -> seq<string>, i: nat)
    requires i <= |children| && !PruneChildren(c, w, children[..i], files).ok
    ensures PruneChildren(c, w, children, files) == PruneChildren(c, w, children[..i], files)
    decreases |children| - i
  {
    if i == |children| {
      assert children[..i] == children;
    } else {
      assert children[..i + 1][..i] == children[..i];
      PruneRaised(c, w, children, files, i + 1);
    }
  }
}
