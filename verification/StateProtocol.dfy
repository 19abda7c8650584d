/** `mutate_state` as a machine whose transitions are its filesystem operations,
  and several processes running it, or reading, beside each other.

  A process can be killed between any two transitions.  Directory listings are
  processed in any order, and any owned removal may be skipped, because the source
  suppresses OSError there. */
module StateProtocol {
  import opened Wrappers
  import opened StateDisk

  datatype Error =
    | Unexpected        // an object outside the owned name patterns
    | Broken            // the pointer or its manifest is invalid
    | Reused            // operation ID already used for another request
    | Undecodable       // the receipt's result is not valid for this operation
    | Rejected          // the validator raised
    | Raised            // the mutator raised
    | Unverified        // the published pointer is not the new generation
    | Busy              // the exclusive lock is taken
    | Fault             // any other exception

  /** How far the publication of a staged mutation has come. */
  datatype Stage =
    | Mutated
    | Recorded
    | Validated
    | Manifested
    | TreeSynced
    | Renamed
    | NamesSynced
    | Linked
    | LinkSynced
    | Switched
    | PointerSynced

  /** Control point of one `mutate_state` call that holds the lock. */
  datatype Phase =
    | Entered
    | SweepingStaging(todo: set<Name>)
    | SweepingLinks(links: set<Link>)
    | Locating
    | SweepingUnreferenced(active: Option<Id>, todo: set<Name>)
    | Deciding(active: Option<Id>)
    | Replaying(id: Id, value: Value)
    | Creating(active: Option<Id>)
    | Copying(active: Option<Id>, id: Id)
    | Mutating(active: Option<Id>, id: Id, rest: seq<Write>, outcome: Option<Value>)
    | Discarding(id: Id, value: Value)
    | Publishing(active: Option<Id>, id: Id, value: Value, stage: Stage)
    | SweepingOld(id: Id, value: Value, todo: set<Name>)
    | ClearingLegacy(value: Value)
    | Failing(staging: Option<Id>, error: Error)
    | Returned(value: Value)
    | Failed(error: Error)

  datatype Config = Config(disk: Disk, phase: Phase, skipped: bool)

  datatype Act =
    | Advance
    | DropEntry(name: Name, entry: Entry)
    | DropRoot(name: Name)
    | SkipChild(name: Name)
    | DropLink(link: Link)
    | SkipLink(link: Link)
    | RefuseChild(name: Name)
    | RefuseLink(link: Link)
    | Create(id: Id)
    | CopyEntry(entry: Entry)
    | DropLegacy(entry: Entry)
    | Fail

  predicate IsStaging(n: Name) { n.Staging? }

  predicate IsTemporary(l: Link) { l.Temporary? }

  /** The directories a phase may be removing. */
  function Targets(phase: Phase): set<Name> {
    match phase
    case SweepingStaging(todo) => set n | n in todo && n.Staging?
    case SweepingUnreferenced(_, todo) => set n | n in todo && n.Generation?
    case SweepingOld(_, _, todo) => set n | n in todo && n.Generation?
    case Discarding(id, _) => {Staging(id)}
    case Failing(Some(id), _) => {Staging(id)}
    case _ => {}
  }

  predicate Sweeping(phase: Phase) {
    phase.SweepingStaging? || phase.SweepingUnreferenced? || phase.SweepingOld?
  }

  /** The phase after a target is gone, or was given up. */
  function AfterChild(phase: Phase, n: Name): Phase {
    match phase
    case SweepingStaging(todo) => SweepingStaging(todo - {n})
    case SweepingUnreferenced(active, todo) => SweepingUnreferenced(active, todo - {n})
    case SweepingOld(id, value, todo) => SweepingOld(id, value, todo - {n})
    case Discarding(_, value) => Returned(value)
    case _ => phase
  }

  /** The staging directory the exception handler of a phase removes. */
  function Guarded(phase: Phase): Option<Id> {
    match phase
    case Copying(_, id) => Some(id)
    case Mutating(_, id, _, _) => Some(id)
    case Discarding(id, _) => Some(id)
    case Publishing(_, id, _, _) => Some(id)
    case _ => None
  }

  predicate Finished(phase: Phase) {
    phase.Returned? || phase.Failed?
  }

  /** The entries in which two trees differ. */
  function Changed(t: Tree, t': Tree): set<Entry> {
    set e | e in t.Keys + t'.Keys && !(e in t && e in t' && t[e] == t'[e])
  }

  function TreeAt(disk: Disk, n: Name): Tree {
    if n in disk.generations then disk.generations[n] else map[]
  }

  /** Files below `n` change; what changed is not durable. */
  function Rewrite(disk: Disk, n: Name, t: Tree): Disk
    requires !n.Foreign?
  {
    disk.(generations := disk.generations[n := t],
          dirty := disk.dirty[n.id := Dirty(disk, n.id) + Changed(TreeAt(disk, n), t)])
  }

  function NewDirectory(disk: Disk, n: Name): Disk {
    disk.(generations := disk.generations[n := map[]], looseNames := disk.looseNames + {n})
  }

  function WithoutDirectory(disk: Disk, n: Name): Disk {
    disk.(generations := disk.generations - {n}, looseNames := disk.looseNames + {n})
  }

  /** `os.replace(staging, final)`: one directory under a new name. */
  function RenamedDirectory(disk: Disk, id: Id): Disk {
    disk.(generations := (disk.generations - {Staging(id)})[Generation(id) := StagedTree(disk, id)],
          looseNames := disk.looseNames + {Staging(id), Generation(id)})
  }

  /** `_fsync_tree` of the staging directory. */
  function TreeFsync(disk: Disk, id: Id): Disk {
    disk.(dirty := disk.dirty[id := {}])
  }

  /** fsync of `generations`. */
  function NamesFsync(disk: Disk): Disk {
    disk.(looseNames := {})
  }

  function WithLink(disk: Disk, l: Link): Disk {
    disk.(links := disk.links + {l}, looseLinks := disk.looseLinks + {l})
  }

  function WithoutLink(disk: Disk, l: Link): Disk {
    disk.(links := disk.links - {l}, looseLinks := disk.looseLinks + {l})
  }

  /** The rename of the temporary link over `current`. */
  function SwitchedTo(disk: Disk, id: Id): Disk {
    WithoutLink(disk, Temporary(id)).(current := Some(id), pointers := disk.pointers + {Some(id)})
  }

  /** One file of the legacy directories goes. */
  function WithoutLegacy(disk: Disk, e: Entry): Disk {
    disk.(legacy := disk.legacy - {e}, dirtyLegacy := disk.dirtyLegacy + {e})
  }

  /** fsync of the directory that holds `current`, the links and the legacy directories;
    a legacy directory that is gone is gone for good then. */
  function PointerFsync(disk: Disk): Disk {
    disk.(pointers := {disk.current}, looseLinks := {},
          dirtyLegacy := if disk.legacy == map[] then {} else disk.dirtyLegacy)
  }

  function StagedTree(disk: Disk, id: Id): Tree {
    if Staging(id) in disk.generations then disk.generations[Staging(id)] else map[]
  }

  /** `_read_operation` on the active generation, with `mutate_state`'s use of it. */
  function Decide(req: Request, disk: Disk, active: Option<Id>): Phase {
    if active.Some? && req.operation.Some?
       && Generation(active.value) in disk.generations
       && Receipt(req.operation.value.id) in disk.generations[Generation(active.value)]
    then
      var op := req.operation.value;
      match disk.generations[Generation(active.value)][Receipt(op.id)]
      case ReceiptOf(kind, result) =>
        if kind != op.kind then Failing(None, Reused)
        else if op.decodes(result) then Replaying(active.value, result)
        else Failing(None, Undecodable)
      case _ => Failing(None, Reused)
    else Creating(active)
  }

  /** The publication steps of `mutate_state` and `_publish`. */
  function AdvancePublishing(req: Request, c: Config): Config
    requires c.phase.Publishing?
  {
    var Publishing(active, id, value, stage) := c.phase;
    Config(StageDisk(req, c.disk, id, value, stage), StagePhase(req, c.disk, active, id, value, stage), c.skipped)
  }

  /** What the next publication operation does to the disk. */
  function StageDisk(req: Request, disk: Disk, id: Id, value: Value, stage: Stage): Disk {
    match stage
    case Mutated => Rewrite(disk, Staging(id), Stamped(req, StagedTree(disk, id), value))
    case Recorded => disk
    case Validated => Rewrite(disk, Staging(id), Sealed(StagedTree(disk, id), id))
    case Manifested => TreeFsync(disk, id)
    case TreeSynced => RenamedDirectory(disk, id)
    case Renamed => NamesFsync(disk)
    case NamesSynced => WithLink(disk, Temporary(id))
    case Linked => PointerFsync(disk)
    case LinkSynced => SwitchedTo(disk, id)
    case Switched => PointerFsync(disk)
    case PointerSynced => disk
  }

  /** How the call goes on after it. */
  function StagePhase(req: Request, disk: Disk, active: Option<Id>, id: Id, value: Value, stage: Stage): Phase {
    match stage
    case Mutated => Publishing(active, id, value, Recorded)
    case Recorded =>
      if req.validate(StagedTree(disk, id)) then Publishing(active, id, value, Validated)
      else Failing(Some(id), Rejected)
    case Validated => Publishing(active, id, value, Manifested)
    case Manifested => Publishing(active, id, value, TreeSynced)
    case TreeSynced => Publishing(active, id, value, Renamed)
    case Renamed => Publishing(active, id, value, NamesSynced)
    case NamesSynced => Publishing(active, id, value, Linked)
    case Linked => Publishing(active, id, value, LinkSynced)
    case LinkSynced => Publishing(active, id, value, Switched)
    case Switched => Publishing(active, id, value, PointerSynced)
    case PointerSynced =>
      if disk.current != Some(id) || !Intact(disk, id) then Failing(Some(id), Unverified)
      else if !req.validate(disk.generations[Generation(id)]) then Failing(Some(id), Rejected)
      else SweepingOld(id, value, disk.generations.Keys - {Generation(id)})
  }

  /** Transitions that take no choice.  None: the phase is not ready for one. */
  function AdvanceFrom(req: Request, c: Config): Option<Config> {
    var disk := c.disk;
    match c.phase
    case Entered =>
      Some(c.(phase := SweepingStaging(set n | n in disk.generations && IsStaging(n))))
    case SweepingStaging(todo) =>
      if todo == {} then Some(c.(phase := SweepingLinks(disk.links))) else None
    case SweepingLinks(links) =>
      if links == {} then Some(c.(phase := Locating)) else None
    case Locating =>
      if disk.current.Some? && !Intact(disk, disk.current.value) then
        Some(c.(phase := Failing(None, Broken)))
      else
        var kept := if disk.current.Some? then {Generation(disk.current.value)} else {};
        Some(c.(phase := SweepingUnreferenced(disk.current, disk.generations.Keys - kept)))
    case SweepingUnreferenced(active, todo) =>
      if todo == {} then Some(c.(phase := Deciding(active))) else None
    case Deciding(active) =>
      Some(c.(phase := Decide(req, disk, active)))
    case Replaying(id, value) =>
      if Generation(id) in disk.generations && req.validate(disk.generations[Generation(id)])
      then Some(c.(phase := ClearingLegacy(value)))
      else Some(c.(phase := Failing(None, Rejected)))
    case Creating(_) => None
    case Copying(active, id) =>
      if StagedTree(disk, id).Keys == Source(disk, active).Keys then
        var execution := req.run(StagedTree(disk, id));
        Some(c.(phase := Mutating(active, id, execution.writes, execution.outcome)))
      else None
    case Mutating(active, id, rest, outcome) =>
      if rest != [] then
        Some(Config(Rewrite(disk, Staging(id), Apply(rest[0], StagedTree(disk, id))),
                    Mutating(active, id, rest[1..], outcome), c.skipped))
      else if outcome.None? then
        Some(c.(phase := Failing(Some(id), Raised)))
      else if !req.publishIf(outcome.value) then
        Some(c.(phase := Discarding(id, outcome.value)))
      else
        Some(c.(phase := Publishing(active, id, outcome.value, Mutated)))
    case Discarding(_, _) => None
    case Publishing(_, _, _, _) => Some(AdvancePublishing(req, c))
    case SweepingOld(_, value, todo) =>
      if todo == {} then Some(c.(phase := ClearingLegacy(value))) else None
    case ClearingLegacy(value) =>
      if disk.legacy == map[] then Some(Config(PointerFsync(disk), Returned(value), c.skipped)) else None
    case Failing(_, error) => Some(c.(phase := Failed(error)))
    case Returned(_) => None
    case Failed(_) => None
  }

  /** One filesystem operation of a call, or None when it is not possible now. */
  function Next(req: Request, c: Config, a: Act): Option<Config> {
    var disk := c.disk;
    match a
    case Advance => AdvanceFrom(req, c)
    case DropEntry(n, e) =>
      if n in Targets(c.phase) && n in disk.generations && e in disk.generations[n]
      then Some(c.(disk := Rewrite(disk, n, disk.generations[n] - {e})))
      else None
    case DropRoot(n) =>
      if n in Targets(c.phase) && n in disk.generations && disk.generations[n] == map[]
      then Some(Config(WithoutDirectory(disk, n),
                       AfterChild(c.phase, n), c.skipped))
      else None
    case SkipChild(n) =>
      if n in Targets(c.phase) && Sweeping(c.phase)
      then Some(Config(disk, AfterChild(c.phase, n), true))
      else None
    case DropLink(l) =>
      if c.phase.SweepingLinks? && l in c.phase.links && l.Temporary?
      then Some(Config(WithoutLink(disk, l), SweepingLinks(c.phase.links - {l}), c.skipped))
      else None
    case SkipLink(l) =>
      if c.phase.SweepingLinks? && l in c.phase.links && l.Temporary?
      then Some(Config(disk, SweepingLinks(c.phase.links - {l}), true))
      else None
    case RefuseChild(n) =>
      if (c.phase.SweepingUnreferenced? || c.phase.SweepingOld?) && n in c.phase.todo && !n.Generation?
      then Some(c.(phase := Failing(None, Unexpected)))
      else None
    case RefuseLink(l) =>
      if c.phase.SweepingLinks? && l in c.phase.links && l.Stray?
      then Some(c.(phase := Failing(None, Unexpected)))
      else None
    case Create(id) =>
      if c.phase.Creating? && Staging(id) !in disk.generations && Generation(id) !in disk.generations
      then Some(Config(NewDirectory(disk, Staging(id)), Copying(c.phase.active, id), c.skipped))
      else None
    case CopyEntry(e) =>
      if c.phase.Copying? && e in Source(disk, c.phase.active) && e !in StagedTree(disk, c.phase.id)
      then
        var copied := StagedTree(disk, c.phase.id)[e := Source(disk, c.phase.active)[e]];
        Some(c.(disk := Rewrite(disk, Staging(c.phase.id), copied)))
      else None
    case DropLegacy(e) =>
      if c.phase.ClearingLegacy? && e in disk.legacy
      then Some(c.(disk := WithoutLegacy(disk, e)))
      else None
    case Fail =>
      if Finished(c.phase) || c.phase.Failing?
      then None
      else Some(c.(phase := Failing(Guarded(c.phase), Fault)))
  }

  // ---------------------------------------------------------------- processes

  type Pid = nat

  datatype Process =
    | Idle
    | Writer(req: Request, phase: Phase, skipped: bool)
    // `bound` is None until the pointer was read; the inner None is "no state yet".
    | Reader(exclusive: bool, bound: Option<Option<Id>>)

  /** One published generation: what it was built from, by which call. */
  datatype Publication = Publication(id: Id, tree: Tree, base: Tree, req: Request)

  datatype System = System(
    disk: Disk,
    exclusive: Option<Pid>,
    shared: set<Pid>,
    processes: map<Pid, Process>,
    // History: identifiers ever drawn, legacy content at the start, publications.
    used: set<Id>,
    origin: Tree,
    history: seq<Publication>)

  datatype Event =
    | BeginWrite(pid: Pid, req: Request)
    | WriterStep(pid: Pid, act: Act)
    | EndWrite(pid: Pid)
    | BeginRead(pid: Pid, exclusive: bool)
    | Bind(pid: Pid)
    | EndRead(pid: Pid)
    | Kill(pid: Pid)

  function ProcessOf(s: System, p: Pid): Process {
    if p in s.processes then s.processes[p] else Idle
  }

  function ConfigOf(s: System, p: Pid): Config
    requires ProcessOf(s, p).Writer?
  {
    Config(s.disk, ProcessOf(s, p).phase, ProcessOf(s, p).skipped)
  }

  predicate Free(s: System) {
    s.exclusive.None? && s.shared == {}
  }

  /** A process that ends or dies gives its lock back. */
  function Released(s: System, p: Pid): System {
    s.(processes := s.processes[p := Idle],
       exclusive := if s.exclusive == Some(p) then None else s.exclusive,
       shared := s.shared - {p})
  }

  predicate IsSwitch(phase: Phase, a: Act) {
    phase.Publishing? && phase.stage.LinkSynced? && a.Advance?
  }

  /** The publication history grows exactly when the pointer is switched. */
  function HistoryAfter(history: seq<Publication>, req: Request, c: Config, a: Act): seq<Publication> {
    if IsSwitch(c.phase, a) && Generation(c.phase.id) in c.disk.generations
    then history + [Publication(c.phase.id, c.disk.generations[Generation(c.phase.id)],
                                Source(c.disk, c.phase.active), req)]
    else history
  }

  /** One step of the system.  None: the event cannot happen in this state. */
  function Step(s: System, e: Event): Option<System> {
    match e
    case BeginWrite(p, req) =>
      if ProcessOf(s, p) != Idle then None
      else if Free(s) then
        Some(s.(processes := s.processes[p := Writer(req, Entered, false)], exclusive := Some(p)))
      else Some(s)   // "persistent state is busy"
    case WriterStep(p, a) =>
      if !ProcessOf(s, p).Writer? || (a.Create? && a.id in s.used) then None
      else
        var req := ProcessOf(s, p).req;
        var next := Next(req, ConfigOf(s, p), a);
        if next.None? then None
        else Some(s.(disk := next.value.disk,
                     processes := s.processes[p := Writer(req, next.value.phase, next.value.skipped)],
                     used := if a.Create? then s.used + {a.id} else s.used,
                     history := HistoryAfter(s.history, req, ConfigOf(s, p), a)))
    case EndWrite(p) =>
      if ProcessOf(s, p).Writer? && Finished(ProcessOf(s, p).phase) then Some(Released(s, p)) else None
    case BeginRead(p, exclusive) =>
      if ProcessOf(s, p) != Idle then None
      else if exclusive then
        if Free(s)
        then Some(s.(processes := s.processes[p := Reader(true, None)], exclusive := Some(p)))
        else Some(s)
      else if s.exclusive.None?
      then Some(s.(processes := s.processes[p := Reader(false, None)], shared := s.shared + {p}))
      else None   // blocked
    case Bind(p) =>
      if ProcessOf(s, p).Reader? && ProcessOf(s, p).bound.None? then
        var exclusive := ProcessOf(s, p).exclusive;
        if s.disk.current.None? && s.disk.legacy != map[] then Some(Released(s, p))
        else if s.disk.current.Some? && !Intact(s.disk, s.disk.current.value) then Some(Released(s, p))
        else Some(s.(processes := s.processes[p := Reader(exclusive, Some(s.disk.current))]))
      else None
    case EndRead(p) =>
      if ProcessOf(s, p).Reader? then Some(Released(s, p)) else None
    case Kill(p) =>
      if ProcessOf(s, p) == Idle then None else Some(Released(s, p))
  }

  /** The state after a sequence of events, if all of them can happen in turn. */
  function Play(s: System, events: seq<Event>): Option<System>
    decreases |events|
  {
    if events == [] then Some(s)
    else
      var next := Step(s, events[0]);
      if next.None? then None else Play(next.value, events[1..])
  }

  /** An instance before its first publication: possibly legacy data, possibly
    objects the program does not own, everything durable. */
  ghost predicate Initial(s: System) {
    && s.exclusive.None? && s.shared == {} && s.processes == map[]
    && s.history == [] && s.disk.current.None? && s.disk == Settled(s.disk)
    && s.origin == s.disk.legacy
    && (forall e: Entry :: e in s.origin ==> e.Data?)
    && (forall n: Name :: n in s.disk.generations && !n.Foreign? ==> n.id in s.used)
    && (forall l: Link :: l in s.disk.links && l.Temporary? ==> l.id in s.used)
  }
}
