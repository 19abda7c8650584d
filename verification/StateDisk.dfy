/** The part of `state/` that src/shuttle_gate/state.py owns, as a value.

  A directory tree is a map from entries to contents; directories exist because
  something is in them, except that a generation root may be empty.  Beside what
  a process sees, a disk records what is certain to survive a power loss. */
module StateDisk {
  import opened Wrappers

  /** The random part of a generation name. */
  type Id = nat

  type Value = string

  datatype Entry =
    | Manifest
    | Receipt(op: OpId)
    | Data(path: string)

  datatype Content =
    | ManifestOf(id: Id)
    | ReceiptOf(kind: Kind, result: Value)
    | Blob(bytes: string)

  type Tree = map<Entry, Content>

  /** A child of `state/generations`. */
  datatype Name =
    | Staging(id: Id)
    | Generation(id: Id)
    | Foreign(name: string)

  /** An object matching `state/.current-*`. */
  datatype Link =
    | Temporary(id: Id)
    | Stray(name: string)

  datatype Disk = Disk(
    generations: map<Name, Tree>,
    links: set<Link>,
    current: Option<Id>,
    legacy: Tree,
    // What a power loss now may change: the values `current` may come back with, the
    // names below `generations` and the links that may come or go, and the files that
    // may have any content at all, by the directory they are in.
    pointers: set<Option<Id>>,
    looseNames: set<Name>,
    looseLinks: set<Link>,
    dirty: map<Id, set<Entry>>,
    dirtyLegacy: set<Entry>)

  /** The files below a directory that were changed since they were last fsynced. */
  function Dirty(disk: Disk, id: Id): set<Entry> {
    if id in disk.dirty then disk.dirty[id] else {}
  }

  /** Equal but for these entries. */
  ghost predicate AgreeExcept(t: Tree, t': Tree, loose: set<Entry>) {
    forall e: Entry :: e !in loose ==> ((e in t <==> e in t') && (e in t ==> t[e] == t'[e]))
  }

  /** A disk that power may come back on: what was fsynced is there, and of the rest
    anything, every subset of the unsynced changes and torn files included.  Whatever is
    found is durable from then on. */
  ghost predicate AfterPowerLoss(d: Disk, d': Disk) {
    && d'.current in d.pointers
    && (forall n: Name :: n !in d.looseNames ==> (n in d'.generations <==> n in d.generations))
    && (forall n: Name :: n in d'.generations && n in d.generations ==>
          AgreeExcept(d.generations[n], d'.generations[n], if n.Foreign? then {} else Dirty(d, n.id)))
    && (forall l: Link :: l !in d.looseLinks ==> (l in d'.links <==> l in d.links))
    && AgreeExcept(d.legacy, d'.legacy, d.dirtyLegacy)
    && d' == Settled(d')
  }

  /** The same disk with everything on it durable. */
  function Settled(d: Disk): Disk {
    d.(pointers := {d.current}, looseNames := {}, looseLinks := {}, dirty := map[], dirtyLegacy := {})
  }

  /** Without a loose entry the trees are the same. */
  lemma AgreeingTreesAreEqual(t: Tree, t': Tree)
    requires AgreeExcept(t, t', {})
    ensures t == t'
  {
    assert forall e: Entry :: e !in {} ==> (e in t <==> e in t');
    assert t.Keys == t'.Keys;
  }

  /** One file operation of a mutator.  Mutators own data files, not receipts. */
  datatype Write =
    | Put(path: string, bytes: string)
    | Delete(path: string)

  /** What one execution of a mutator does: its file operations in order, and the
    value it returns, or None when it raises. */
  datatype Execution = Execution(writes: seq<Write>, outcome: Option<Value>)

  datatype Operation = Operation(id: OpId, kind: Kind, decodes: Value -> bool)

  /** The arguments of one `mutate_state` call.  Random choices of the mutator are
    part of `run`, which sees the staged tree it starts from. */
  datatype Request = Request(
    run: Tree -> Execution,
    validate: Tree -> bool,
    publishIf: Value -> bool,
    operation: Option<Operation>)

  function Apply(w: Write, t: Tree): Tree {
    match w
    case Put(path, bytes) => t[Data(path) := Blob(bytes)]
    case Delete(path) => t - {Data(path)}
  }

  function ApplyAll(writes: seq<Write>, t: Tree): Tree {
    if writes == [] then t else ApplyAll(writes[1..], Apply(writes[0], t))
  }

  /** What `_copy_active` carries from one generation into the next. */
  function Carried(t: Tree): Tree {
    t - {Manifest}
  }

  function Stamped(req: Request, t: Tree, value: Value): Tree {
    match req.operation
    case None => t
    case Some(op) => t[Receipt(op.id) := ReceiptOf(op.kind, value)]
  }

  function Sealed(t: Tree, id: Id): Tree {
    t[Manifest := ManifestOf(id)]
  }

  /** The staged tree a completed mutator leaves, with its receipt. */
  function Mutation(req: Request, base: Tree): Tree
    requires req.run(base).outcome.Some?
  {
    Stamped(req, ApplyAll(req.run(base).writes, base), req.run(base).outcome.value)
  }

  /** `_active_generation`: `current` names a directory with its own manifest. */
  predicate Intact(disk: Disk, id: Id) {
    && Generation(id) in disk.generations
    && Manifest in disk.generations[Generation(id)]
    && disk.generations[Generation(id)][Manifest] == ManifestOf(id)
  }

  /** The tree a reader reaches through `current`, if any. */
  function View(disk: Disk): Option<Tree> {
    if disk.current.Some? && Generation(disk.current.value) in disk.generations
    then Some(disk.generations[Generation(disk.current.value)])
    else None
  }

  /** Where a new generation starts: the active one, or the legacy directories. */
  function Source(disk: Disk, active: Option<Id>): Tree {
    match active
    case None => disk.legacy
    case Some(id) =>
      if Generation(id) in disk.generations then Carried(disk.generations[Generation(id)]) else map[]
  }

  /** Mutators leave receipts and the manifest alone. */
  lemma {:induction false} ApplyAllKeepsReceipts(writes: seq<Write>, t: Tree)
    ensures forall e: Entry :: !e.Data? ==>
      (e in ApplyAll(writes, t) <==> e in t) &&
      (e in t ==> ApplyAll(writes, t)[e] == t[e])
  {
    if writes != [] {
      ApplyAllKeepsReceipts(writes[1..], Apply(writes[0], t));
    }
  }
}
