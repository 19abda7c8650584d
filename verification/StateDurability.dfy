/** What counts as durable: a change may be lost until the fsync that covers it, and an
  fsync covers nothing else. */
module StateDurability {
  import opened Wrappers
  import opened StateDisk
  import opened StateProtocol
  import opened StateInvariant

  /** The operations that are an fsync. */
  predicate Syncs(phase: Phase, a: Act) {
    && a.Advance?
    && (phase.ClearingLegacy?
        || (phase.Publishing?
            && (phase.stage.Manifested? || phase.stage.Renamed? || phase.stage.Linked? || phase.stage.Switched?)))
  }

  /** What is visible is one of the things that can come back. */
  lemma {:induction false} NothingNeedBeLost(d: Disk)
    requires d.current in d.pointers
    ensures AfterPowerLoss(d, Settled(d))
  {
    assert forall n: Name :: n in d.generations ==> AgreeExcept(d.generations[n], d.generations[n], {});
  }

  /** Of what is not durable, anything may come back, each part by itself: the files
    changed since their fsync with any content or none, ... */
  lemma {:induction false} FilesMayComeBackTorn(d: Disk, n: Name, torn: Tree)
    requires d.current in d.pointers
    requires n in d.generations && !n.Foreign? && AgreeExcept(d.generations[n], torn, Dirty(d, n.id))
    ensures AfterPowerLoss(d, Settled(d.(generations := d.generations[n := torn])))
  {
    var d' := Settled(d.(generations := d.generations[n := torn]));
    forall m: Name | m in d'.generations && m in d.generations
      ensures AgreeExcept(d.generations[m], d'.generations[m], if m.Foreign? then {} else Dirty(d, m.id))
    {
      assert m != n ==> d'.generations[m] == d.generations[m];
      hide Dirty;
    }
    hide AgreeExcept, Dirty;
  }

  /** ... a name with any tree below it or none, ... */
  lemma {:induction false} NamesMayComeOrGo(d: Disk, n: Name, below: Tree)
    requires d.current in d.pointers && n in d.looseNames
    ensures AfterPowerLoss(d, Settled(d.(generations := d.generations - {n})))
    ensures n !in d.generations ==> AfterPowerLoss(d, Settled(d.(generations := d.generations[n := below])))
  {
    hide Dirty, AgreeExcept;
    NothingNeedBeLost(d);
    assert AfterPowerLoss(d, Settled(d));
  }

  /** ... a link or none, a legacy file with any content or none, and every value that
    `current` had since its last fsync. */
  lemma {:induction false} OthersMayComeOrGo(d: Disk, l: Link, e: Entry, content: Content, g: Option<Id>)
    requires d.current in d.pointers
    ensures l in d.looseLinks ==>
      AfterPowerLoss(d, Settled(d.(links := d.links + {l}))) && AfterPowerLoss(d, Settled(d.(links := d.links - {l})))
    ensures e in d.dirtyLegacy ==>
      && AfterPowerLoss(d, Settled(d.(legacy := d.legacy[e := content])))
      && AfterPowerLoss(d, Settled(d.(legacy := d.legacy - {e})))
    ensures g in d.pointers ==> AfterPowerLoss(d, Settled(d.(current := g)))
  {
  }

  lemma RewriteMayBeLost(disk: Disk, n: Name, t: Tree, d: Disk)
    requires AfterPowerLoss(disk, d) && n in disk.generations && !n.Foreign?
    ensures AfterPowerLoss(Rewrite(disk, n, t), d)
  {
    var disk' := Rewrite(disk, n, t);
    forall m: Name | m in d.generations && m in disk'.generations
      ensures AgreeExcept(disk'.generations[m], d.generations[m], if m.Foreign? then {} else Dirty(disk', m.id))
    {
      assert m in disk.generations;
    }
  }

  lemma NewDirectoryMayBeLost(disk: Disk, n: Name, d: Disk)
    requires AfterPowerLoss(disk, d) && n !in disk.generations && n !in disk.looseNames
    ensures AfterPowerLoss(NewDirectory(disk, n), d)
  {
  }

  lemma RemovalMayBeLost(disk: Disk, n: Name, d: Disk)
    requires AfterPowerLoss(disk, d)
    ensures AfterPowerLoss(WithoutDirectory(disk, n), d)
  {
  }

  lemma RenamingMayBeLost(disk: Disk, id: Id, d: Disk)
    requires AfterPowerLoss(disk, d) && Generation(id) !in disk.generations && Generation(id) !in disk.looseNames
    ensures AfterPowerLoss(RenamedDirectory(disk, id), d)
  {
  }

  lemma LinksMayBeLost(disk: Disk, l: Link, d: Disk)
    requires AfterPowerLoss(disk, d)
    ensures AfterPowerLoss(WithLink(disk, l), d) && AfterPowerLoss(WithoutLink(disk, l), d)
  {
  }

  lemma SwitchMayBeLost(disk: Disk, id: Id, d: Disk)
    requires AfterPowerLoss(disk, d)
    ensures AfterPowerLoss(SwitchedTo(disk, id), d)
  {
  }

  lemma LegacyRemovalMayBeLost(disk: Disk, e: Entry, d: Disk)
    requires AfterPowerLoss(disk, d)
    ensures AfterPowerLoss(WithoutLegacy(disk, e), d)
  {
  }

  lemma AdvanceMayBeLost(c: Config, c': Config, req: Request, used: set<Id>, origin: Tree, history: seq<Publication>, d: Disk)
    requires CallInv(c, req, used, origin, history)
    requires Next(req, c, Advance) == Some(c') && !Syncs(c.phase, Advance)
    requires AfterPowerLoss(c.disk, d)
    ensures AfterPowerLoss(c'.disk, d)
  {
    hide DiskInv, AfterPowerLoss, Rewrite, RenamedDirectory, WithLink, SwitchedTo;
    match c.phase
    case Publishing(active, id, value, stage) =>
      match stage {
        case Mutated => RewriteMayBeLost(c.disk, Staging(id), Stamped(req, StagedTree(c.disk, id), value), d);
        case Validated => RewriteMayBeLost(c.disk, Staging(id), Sealed(StagedTree(c.disk, id), id), d);
        case TreeSynced => RenamingMayBeLost(c.disk, id, d);
        case NamesSynced => LinksMayBeLost(c.disk, Temporary(id), d);
        case LinkSynced => SwitchMayBeLost(c.disk, id, d);
        case _ =>
      }
    case Mutating(active, id, rest, outcome) =>
      if rest != [] {
        RewriteMayBeLost(c.disk, Staging(id), Apply(rest[0], StagedTree(c.disk, id)), d);
      }
    case _ =>
  }

  lemma CreationMayBeLost(
    c: Config, c': Config, id: Id, req: Request, used: set<Id>, origin: Tree, history: seq<Publication>, d: Disk)
    requires CallInv(c, req, used, origin, history) && id !in used
    requires Next(req, c, Create(id)) == Some(c') && AfterPowerLoss(c.disk, d)
    ensures AfterPowerLoss(c'.disk, d)
  {
    hide WriterInv, AfterPowerLoss;
    NewDirectoryMayBeLost(c.disk, Staging(id), d);
  }

  lemma CopyMayBeLost(
    c: Config, c': Config, e: Entry, req: Request, used: set<Id>, origin: Tree, history: seq<Publication>, d: Disk)
    requires CallInv(c, req, used, origin, history)
    requires Next(req, c, CopyEntry(e)) == Some(c') && AfterPowerLoss(c.disk, d)
    ensures AfterPowerLoss(c'.disk, d)
  {
    hide DiskInv, AfterPowerLoss;
    RewriteMayBeLost(c.disk, Staging(c.phase.id),
                     StagedTree(c.disk, c.phase.id)[e := Source(c.disk, c.phase.active)[e]], d);
  }

  /** Until an fsync, nothing a call does is certain: whatever could come back before an
    operation can come back after it as well, so each of the states since the last fsync
    may. */
  lemma {:induction false} UnsyncedStepsMayBeLost(
    c: Config, c': Config, a: Act, req: Request, used: set<Id>, origin: Tree, history: seq<Publication>, d: Disk)
    requires CallInv(c, req, used, origin, history) && (a.Create? ==> a.id !in used)
    requires Next(req, c, a) == Some(c') && !Syncs(c.phase, a)
    requires AfterPowerLoss(c.disk, d)
    ensures AfterPowerLoss(c'.disk, d)
  {
    match a
    case Advance =>
      hide CallInv, Next;
      AdvanceMayBeLost(c, c', req, used, origin, history, d);
    case DropEntry(n, e) =>
      hide CallInv, AfterPowerLoss;
      RewriteMayBeLost(c.disk, n, c.disk.generations[n] - {e}, d);
    case DropRoot(n) =>
      hide CallInv, AfterPowerLoss;
      RemovalMayBeLost(c.disk, n, d);
    case DropLink(l) =>
      hide CallInv, AfterPowerLoss;
      LinksMayBeLost(c.disk, l, d);
    case Create(id) =>
      hide Next, AfterPowerLoss;
      CreationMayBeLost(c, c', id, req, used, origin, history, d);
    case CopyEntry(e) =>
      hide Next, AfterPowerLoss;
      CopyMayBeLost(c, c', e, req, used, origin, history, d);
    case DropLegacy(e) =>
      hide CallInv, AfterPowerLoss;
      LegacyRemovalMayBeLost(c.disk, e, d);
    case _ =>
      hide CallInv, AfterPowerLoss;
  }

  /** What an fsync makes durable: the staged files; the names of the generations; or
    `current`, the links beside it, and legacy directories that are wholly gone. */
  lemma {:induction false} FsyncsReach(c: Config, c': Config, req: Request)
    requires Next(req, c, Advance) == Some(c') && Syncs(c.phase, Advance)
    ensures c'.disk.(pointers := {}, looseNames := {}, looseLinks := {}, dirty := map[], dirtyLegacy := {})
         == c.disk.(pointers := {}, looseNames := {}, looseLinks := {}, dirty := map[], dirtyLegacy := {})
    ensures var files, names := c.phase.Publishing? && c.phase.stage.Manifested?, c.phase.Publishing? && c.phase.stage.Renamed?;
      && (forall id :: Dirty(c'.disk, id) == if files && id == c.phase.id then {} else Dirty(c.disk, id))
      && c'.disk.looseNames == (if names then {} else c.disk.looseNames)
      && c'.disk.looseLinks == (if files || names then c.disk.looseLinks else {})
      && c'.disk.pointers == (if files || names then c.disk.pointers else {c.disk.current})
      && c'.disk.dirtyLegacy == (if files || names || c.disk.legacy != map[] then c.disk.dirtyLegacy else {})
  {
  }
}
