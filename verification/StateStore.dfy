/** `mutate_state` as the source runs it, on a disk that is updated in place.

  The ghost `log` names the filesystem operations performed so far.  A call keeps
  `log` a run of the call machine, so a kill after any operation leaves a disk that
  a prefix of that run reaches, and everything proved of runs applies to it. */
module StateStore {
  import opened Wrappers
  import opened StateDisk
  import opened StateProtocol
  import opened StateInvariant
  import opened StateAnswer

  /** The configuration after a sequence of operations of one call. */
  function CallRun(req: Request, c: Config, acts: seq<Act>): Option<Config>
    decreases |acts|
  {
    if acts == [] then Some(c)
    else
      var next := Next(req, c, acts[0]);
      if next.None? then None else CallRun(req, next.value, acts[1..])
  }

  lemma {:induction false} CallRunExtends(req: Request, c: Config, acts: seq<Act>, a: Act)
    requires CallRun(req, c, acts).Some?
    ensures CallRun(req, c, acts + [a]) == Next(req, CallRun(req, c, acts).value, a)
    decreases |acts|
  {
    hide Next;
    if acts == [] {
      assert ([] + [a])[1..] == [];
    } else {
      assert (acts + [a])[1..] == acts[1..] + [a];
      CallRunExtends(req, Next(req, c, acts[0]).value, acts[1..], a);
    }
  }

  /** The identifiers drawn after some operations; None if one was drawn before. */
  function Drawn(used: set<Id>, acts: seq<Act>): Option<set<Id>>
    decreases |acts|
  {
    if acts == [] then Some(used)
    else if acts[0].Create? then
      if acts[0].id in used then None else Drawn(used + {acts[0].id}, acts[1..])
    else Drawn(used, acts[1..])
  }

  lemma {:induction false} DrawnExtends(used: set<Id>, acts: seq<Act>, a: Act)
    requires Drawn(used, acts).Some?
    requires a.Create? ==> a.id !in Drawn(used, acts).value
    ensures Drawn(used, acts + [a])
            == Some(if a.Create? then Drawn(used, acts).value + {a.id} else Drawn(used, acts).value)
    decreases |acts|
  {
    if acts == [] {
      assert ([] + [a])[1..] == [];
    } else {
      assert (acts + [a])[1..] == acts[1..] + [a];
      DrawnExtends(if acts[0].Create? then used + {acts[0].id} else used, acts[1..], a);
    }
  }

  /** The operations of a call, phase by phase. */
  lemma LinksAreSwept(req: Request, c: Config)
    ensures c.phase == SweepingStaging({}) ==> Next(req, c, Advance) == Some(c.(phase := SweepingLinks(c.disk.links)))
    ensures c.phase == SweepingLinks({}) ==> Next(req, c, Advance) == Some(c.(phase := Locating))
  {
  }

  lemma LinkIsSwept(req: Request, c: Config, l: Link)
    requires c.phase.SweepingLinks? && l in c.phase.links
    ensures l.Stray? ==> Next(req, c, RefuseLink(l)) == Some(c.(phase := Failing(None, Unexpected)))
    ensures l.Temporary? ==>
      && Next(req, c, SkipLink(l)) == Some(Config(c.disk, SweepingLinks(c.phase.links - {l}), true))
      && Next(req, c, DropLink(l)) == Some(Config(WithoutLink(c.disk, l), SweepingLinks(c.phase.links - {l}), c.skipped))
  {
  }

  lemma CopiedEntry(req: Request, c: Config, e: Entry)
    requires c.phase.Copying? && e in Source(c.disk, c.phase.active) && e !in StagedTree(c.disk, c.phase.id)
    ensures Next(req, c, CopyEntry(e)) == Some(c.(disk := Rewrite(c.disk, Staging(c.phase.id),
      StagedTree(c.disk, c.phase.id)[e := Source(c.disk, c.phase.active)[e]])))
  {
  }

  lemma CopyIsRun(req: Request, c: Config)
    requires c.phase.Copying? && StagedTree(c.disk, c.phase.id).Keys == Source(c.disk, c.phase.active).Keys
    ensures var execution := req.run(StagedTree(c.disk, c.phase.id));
      Next(req, c, Advance)
      == Some(c.(phase := Mutating(c.phase.active, c.phase.id, execution.writes, execution.outcome)))
  {
  }

  lemma WriteIsApplied(req: Request, c: Config)
    requires c.phase.Mutating? && c.phase.rest != []
    ensures Next(req, c, Advance) == Some(c.(
      disk := Rewrite(c.disk, Staging(c.phase.id), Apply(c.phase.rest[0], StagedTree(c.disk, c.phase.id))),
      phase := c.phase.(rest := c.phase.rest[1..])))
  {
  }

  lemma MutationIsJudged(req: Request, c: Config)
    requires c.phase.Mutating? && c.phase.rest == []
    ensures var Mutating(active, id, _, outcome) := c.phase;
      Next(req, c, Advance) == Some(c.(phase :=
        if outcome.None? then Failing(Some(id), Raised)
        else if req.publishIf(outcome.value) then Publishing(active, id, outcome.value, Mutated)
        else Discarding(id, outcome.value)))
  {
  }

  predicate FaultIn(phase: Phase) {
    match phase
    case Failing(_, error) => error.Fault?
    case Failed(error) => error.Fault?
    case _ => false
  }

  /** A call of itself neither skips a removal nor fails with a fault. */
  lemma FaultsComeFromOutside(req: Request, c: Config, a: Act, c': Config)
    requires Next(req, c, a) == Some(c')
    ensures c'.skipped || FaultIn(c'.phase) ==>
      c.skipped || FaultIn(c.phase) || a.Fail? || a.SkipChild? || a.SkipLink?
  {
  }

  class StateStore {
    var disk: Disk
    ghost var used: set<Id>
    ghost var origin: Tree
    ghost var history: seq<Publication>
    // The call in progress.
    ghost var start: Config
    ghost var drawnBefore: set<Id>
    ghost var phase: Phase
    ghost var skipped: bool
    ghost var log: seq<Act>
    // Whether an operation of this call has failed.
    ghost var faulted: bool

    /** Between calls. */
    ghost predicate Settled()
      reads this
    {
      DiskInv(disk, used, origin, history) && Chain(history, origin)
    }

    ghost function Here(): Config
      reads this
    {
      Config(disk, phase, skipped)
    }

    /** The operations performed so far are a run of the machine from `start`. */
    ghost predicate During(req: Request)
      reads this
    {
      && CallRun(req, start, log) == Some(Here())
      && Drawn(drawnBefore, log) == Some(used)
      && CallInv(Here(), req, used, origin, history)
      && Chain(history, origin)
      && (skipped || FaultIn(phase) ==> faulted)
    }

    constructor (d: Disk, ghost u: set<Id>, ghost o: Tree, ghost h: seq<Publication>)
      requires DiskInv(d, u, o, h) && Chain(h, o)
      ensures Settled() && disk == d && used == u && origin == o && history == h
    {
      disk := d;
      used := u;
      origin := o;
      history := h;
      start := Config(d, Entered, false);
      drawnBefore := u;
      phase := Entered;
      skipped := false;
      log := [];
      faulted := false;
    }

    /** One filesystem operation: the disk becomes `next`, which is what `a` does. */
    method Perform(req: Request, ghost a: Act, next: Disk)
      requires During(req)
      requires Next(req, Here(), a).Some? && Next(req, Here(), a).value.disk == next
      requires a.Create? ==> a.id !in used
      requires a.Fail? || a.SkipChild? || a.SkipLink? ==> faulted
      modifies `disk, `phase, `skipped, `log, `used, `history
      ensures During(req)
      ensures disk == next
      ensures Some(Here()) == old(Next(req, Here(), a))
      ensures log == old(log) + [a]
      ensures history == old(HistoryAfter(history, req, Here(), a))
      ensures used == if a.Create? then old(used) + {a.id} else old(used)
    {
      hide DiskInv, WriterInv, CallInv, Chain, Next, HistoryAfter, CallRun, Drawn;
      ghost var before := Here();
      ghost var after := Next(req, before, a).value;
      ActKeepsInv(before, after, a, req, used, origin, history);
      SwitchExtendsChain(before, a, req, used, origin, history);
      FaultsComeFromOutside(req, before, a, after);
      CallRunExtends(req, start, log, a);
      DrawnExtends(drawnBefore, log, a);
      disk := next;
      used := if a.Create? then used + {a.id} else used;
      history := HistoryAfter(history, req, before, a);
      phase, skipped, log := after.phase, after.skipped, log + [a];
    }

    /** Whether the environment makes the next operation fail. */
    method Faulty(req: Request) returns (fault: bool)
      requires During(req)
      modifies `faulted
      ensures During(req) && faulted == (old(faulted) || fault)
    {
      fault := *;
      faulted := faulted || fault;
    }

    /** Unlinks one entry of a directory this phase may remove. */
    method Unlink(req: Request, n: Name, e: Entry)
      requires During(req)
      requires n in Targets(phase) && n in disk.generations && e in disk.generations[n]
      modifies `disk, `phase, `skipped, `log, `used, `history
      ensures During(req) && history == old(history) && used == old(used)
      ensures phase == old(phase) && skipped == old(skipped)
      ensures n in disk.generations && disk.generations[n] == old(disk.generations[n]) - {e}
      ensures disk.generations.Keys == old(disk.generations.Keys)
      ensures Undisturbed(old(disk), disk, {n})
    {
      hide During, AdvanceFrom;
      Perform(req, DropEntry(n, e), Rewrite(disk, n, disk.generations[n] - {e}));
    }

    /** Removes an emptied directory this phase may remove. */
    method RemoveDirectory(req: Request, n: Name)
      requires During(req)
      requires n in Targets(phase) && n in disk.generations && disk.generations[n] == map[]
      modifies `disk, `phase, `skipped, `log, `used, `history
      ensures During(req) && history == old(history) && used == old(used)
      ensures phase == AfterChild(old(phase), n) && skipped == old(skipped)
      ensures disk.generations == old(disk.generations) - {n}
      ensures Undisturbed(old(disk), disk, {n})
    {
      hide During, AdvanceFrom;
      Perform(req, DropRoot(n), WithoutDirectory(disk, n));
    }

    /** `_remove_owned` on a directory this phase may remove (line 227). */
    method RemoveOwned(req: Request, n: Name) returns (removed: bool)
      requires During(req)
      requires n in Targets(phase) && n in disk.generations
      modifies `disk, `phase, `skipped, `log, `used, `history, `faulted
      ensures During(req) && history == old(history) && used == old(used)
      ensures skipped == old(skipped)
      ensures phase == if removed then AfterChild(old(phase), n) else old(phase)
      ensures !removed ==> faulted
      ensures disk.generations.Keys == old(disk.generations.Keys) - if removed then {n} else {}
      ensures Undisturbed(old(disk), disk, {n})
    {
      hide During, Targets, AfterChild;
      while disk.generations[n] != map[]
        invariant During(req) && history == old(history) && used == old(used)
        invariant skipped == old(skipped) && phase == old(phase)
        invariant disk.generations.Keys == old(disk.generations.Keys)
        invariant Undisturbed(old(disk), disk, {n})
        decreases |disk.generations[n]|
      {
        var fault := Faulty(req);
        if fault {
          return false;
        }
        var e :| e in disk.generations[n];
        ghost var keys := disk.generations[n].Keys;
        Unlink(req, n, e);
        assert disk.generations[n].Keys == keys - {e};
      }
      var fault := Faulty(req);
      if fault {
        return false;
      }
      RemoveDirectory(req, n);
      return true;
    }

    /** The first loop of `_clean_incomplete`: staging directories (line 241). */
    method CleanStaging(req: Request)
      requires During(req) && phase == Entered
      modifies `disk, `phase, `skipped, `log, `used, `history, `faulted
      ensures During(req) && history == old(history) && used == old(used)
      ensures phase == SweepingStaging({})
    {
      hide During, Undisturbed;
      var todo := set n | n in disk.generations && IsStaging(n);
      Perform(req, Advance, disk);
      while todo != {}
        invariant During(req) && history == old(history) && used == old(used)
        invariant phase == SweepingStaging(todo)
        invariant todo <= disk.generations.Keys
        invariant forall n :: n in todo ==> n.Staging?
        decreases todo
      {
        var child :| child in todo;
        var removed := RemoveOwned(req, child);
        if !removed {
          Perform(req, SkipChild(child), disk);
        }
        todo := todo - {child};
      }
    }

    /** The second loop of `_clean_incomplete`: temporary pointer links (line 245). */
    method CleanLinks(req: Request) returns (error: Option<Error>)
      requires During(req) && phase == SweepingStaging({})
      modifies `disk, `phase, `skipped, `log, `used, `history, `faulted
      ensures During(req) && history == old(history) && used == old(used)
      ensures phase == if error.None? then Locating else Failing(None, error.value)
      ensures error.Some? ==> error.value.Unexpected?
    {
      hide During, Next;
      LinksAreSwept(req, Here());
      Perform(req, Advance, disk);
      var links := disk.links;
      while links != {}
        invariant During(req) && history == old(history) && used == old(used)
        invariant phase == SweepingLinks(links)
        decreases links
      {
        var child :| child in links;
        LinkIsSwept(req, Here(), child);
        if !child.Temporary? {
          Perform(req, RefuseLink(child), disk);
          return Some(Unexpected);
        }
        var fault := Faulty(req);
        if fault {
          Perform(req, SkipLink(child), disk);
        } else {
          Perform(req, DropLink(child), WithoutLink(disk, child));
        }
        links := links - {child};
      }
      LinksAreSwept(req, Here());
      Perform(req, Advance, disk);
      return None;
    }

    /** One generation of such a loop: removed, or left when that fails. */
    method CleanGeneration(req: Request, child: Name)
      requires During(req)
      requires phase.SweepingUnreferenced? || phase.SweepingOld?
      requires child in phase.todo && child in disk.generations && child.Generation?
      modifies `disk, `phase, `skipped, `log, `used, `history, `faulted
      ensures During(req) && history == old(history) && used == old(used)
      ensures phase == old(phase).(todo := old(phase).todo - {child})
      ensures old(disk).generations.Keys - {child} <= disk.generations.Keys
      ensures Undisturbed(old(disk), disk, {child})
    {
      hide During, Undisturbed, AdvanceFrom;
      var removed := RemoveOwned(req, child);
      if !removed {
        Perform(req, SkipChild(child), disk);
      }
    }

    /** Such a loop stops at an object that is no generation. */
    method RefuseObject(req: Request, child: Name)
      requires During(req)
      requires phase.SweepingUnreferenced? || phase.SweepingOld?
      requires child in phase.todo && !child.Generation?
      modifies `disk, `phase, `skipped, `log, `used, `history
      ensures During(req) && history == old(history) && used == old(used) && disk == old(disk)
      ensures phase == Failing(None, Unexpected)
    {
      hide During, AdvanceFrom;
      Perform(req, RefuseChild(child), disk);
    }

    /** The loop of `_clean_unreferenced_generations` and of `_clean_old_generations`
      (lines 256 and 407). */
    method CleanGenerations(req: Request, children: set<Name>) returns (error: Option<Error>)
      requires During(req)
      requires phase.SweepingUnreferenced? || phase.SweepingOld?
      requires phase.todo == children && children <= disk.generations.Keys
      modifies `disk, `phase, `skipped, `log, `used, `history, `faulted
      ensures During(req) && history == old(history) && used == old(used)
      ensures phase == if error.None? then old(phase).(todo := {}) else Failing(None, error.value)
      ensures Undisturbed(old(disk), disk, children)
      ensures error.Some? ==> error.value.Unexpected?
    {
      assert Undisturbed(disk, disk, children);
      hide During, Undisturbed;
      var todo := children;
      while todo != {}
        invariant During(req) && history == old(history) && used == old(used)
        invariant phase == old(phase).(todo := todo)
        invariant todo <= children && todo <= disk.generations.Keys
        invariant Undisturbed(old(disk), disk, children)
        decreases todo
      {
        var child :| child in todo;
        if !child.Generation? {
          RefuseObject(req, child);
          return Some(Unexpected);
        }
        ghost var before := disk;
        CleanGeneration(req, child);
        UndisturbedFurther(old(disk), before, disk, child, children);
        todo := todo - {child};
      }
      return None;
    }

    /** `_copy_active` or `_copy_legacy_state` into the new staging directory
      (lines 267 and 284). */
    method CopySource(req: Request, active: Option<Id>, id: Id) returns (error: Option<Error>)
      requires During(req) && phase == Copying(active, id)
      requires Staging(id) in disk.generations && disk.generations[Staging(id)] == map[]
      modifies `disk, `phase, `skipped, `log, `used, `history, `faulted
      ensures During(req) && history == old(history)
      ensures error.None? ==> phase == Copying(active, id)
      ensures error.None? ==> StagedTree(disk, id).Keys == Source(disk, active).Keys
      ensures error.Some? ==> phase == Failing(Some(id), error.value)
      ensures error.Some? ==> error.value.Fault?
    {
      hide During, Next;
      ghost var source := Source(disk, active);
      var todo := Source(disk, active).Keys;
      while todo != {}
        invariant During(req) && history == old(history)
        invariant phase == Copying(active, id)
        invariant Source(disk, active) == source
        invariant todo <= source.Keys && StagedTree(disk, id).Keys == source.Keys - todo
        decreases todo
      {
        var fault := Faulty(req);
        if fault {
          FailHere(req);
          return Some(Fault);
        }
        var e :| e in todo;
        var copied := StagedTree(disk, id)[e := Source(disk, active)[e]];
        CopiedEntry(req, Here(), e);
        Perform(req, CopyEntry(e), Rewrite(disk, Staging(id), copied));
        todo := todo - {e};
      }
      return None;
    }

    /** The mutator's file operations on the staging directory (line 447). */
    method RunMutator(req: Request, active: Option<Id>, id: Id) returns (result: Result<Value, Error>)
      requires During(req) && phase == Copying(active, id)
      requires StagedTree(disk, id).Keys == Source(disk, active).Keys
      modifies `disk, `phase, `skipped, `log, `used, `history, `faulted
      ensures During(req) && history == old(history)
      ensures result.Ok? ==>
        phase == if req.publishIf(result.value)
                 then Publishing(active, id, result.value, Mutated)
                 else Discarding(id, result.value)
      ensures result.Err? ==> phase == Failing(Some(id), result.error)
      ensures result.Err? ==> Fits(disk, history, history, req, result.error)
    {
      hide During, Next, Fits;
      var execution := req.run(StagedTree(disk, id));
      CopyIsRun(req, Here());
      Perform(req, Advance, disk);
      for i := 0 to |execution.writes|
        invariant During(req) && history == old(history)
        invariant phase == Mutating(active, id, execution.writes[i..], execution.outcome)
      {
        var fault := Faulty(req);
        if fault {
          FailHere(req);
          FaultFits(disk, history, req);
          return Err(Fault);
        }
        WriteIsApplied(req, Here());
        Perform(req, Advance, Rewrite(disk, Staging(id), Apply(execution.writes[i], StagedTree(disk, id))));
      }
      MutationIsJudged(req, Here());
      Perform(req, Advance, disk);
      match execution.outcome {
        case None =>
          FailingIsDeserved(req);
          DesertFits(disk, history, req, Raised);
          return Err(Raised);
        case Some(value) => return Ok(value);
      }
    }

    /** The next publication operation. */
    method Proceed(req: Request, next: Disk)
      requires During(req) && phase.Publishing?
      requires AdvancePublishing(req, Here()).disk == next
      modifies `disk, `phase, `skipped, `log, `used, `history
      ensures During(req)
      ensures Here() == old(AdvancePublishing(req, Here()))
      ensures history == old(HistoryAfter(history, req, Here(), Advance))
      ensures Extends(old(history), history, req)
    {
      hide During, AdvancePublishing;
      Perform(req, Advance, next);
    }

    /** An exception before the call is finished. */
    method FailHere(req: Request)
      requires During(req) && !Finished(phase) && !phase.Failing? && faulted
      modifies `disk, `phase, `skipped, `log, `used, `history
      ensures During(req) && history == old(history) && disk == old(disk)
      ensures phase == Failing(Guarded(old(phase)), Fault)
    {
      hide During, AdvanceFrom;
      Perform(req, Fail, disk);
    }

    /** The next publication operation, if it does not raise. */
    method TryProceed(req: Request, next: Disk) returns (error: Option<Error>)
      requires During(req) && phase.Publishing?
      requires AdvancePublishing(req, Here()).disk == next
      modifies `disk, `phase, `skipped, `log, `used, `history, `faulted
      ensures During(req) && Extends(old(history), history, req)
      ensures error.None? ==> Here() == old(AdvancePublishing(req, Here()))
      ensures error.Some? ==> disk == old(disk) && phase == Failing(Some(old(phase).id), Fault) && error.value == Fault
      ensures history == if error.Some? then old(history) else old(HistoryAfter(history, req, Here(), Advance))
    {
      hide During, AdvancePublishing;
      var fault := Faulty(req);
      if fault {
        FailHere(req);
        return Some(Fault);
      }
      Proceed(req, next);
      return None;
    }

    /** Receipt and validation of the staged mutation (lines 451 to 453). */
    method StageResult(req: Request, active: Option<Id>, id: Id, value: Value) returns (error: Option<Error>)
      requires During(req) && phase == Publishing(active, id, value, Mutated)
      modifies `disk, `phase, `skipped, `log, `used, `history, `faulted
      ensures During(req) && history == old(history)
      ensures phase == if error.None? then Publishing(active, id, value, Validated)
                       else Failing(Some(id), error.value)
      ensures error.Some? ==> Fits(disk, history, history, req, error.value)
    {
      hide During, Next;
      error := TryProceed(req, Rewrite(disk, Staging(id), Stamped(req, StagedTree(disk, id), value)));
      if error.Some? {
        return;
      }
      var valid := req.validate(StagedTree(disk, id));
      if !valid {
        RefusedDraft(req);
      }
      Proceed(req, disk);
      return if valid then None else Some(Rejected);
    }

    /** `_publish`: manifest and fsync of the staged tree (lines 388 to 394). */
    method SealGeneration(req: Request, active: Option<Id>, id: Id, value: Value) returns (error: Option<Error>)
      requires During(req) && phase == Publishing(active, id, value, Validated)
      modifies `disk, `phase, `skipped, `log, `used, `history, `faulted
      ensures During(req) && history == old(history)
      ensures phase == if error.None? then Publishing(active, id, value, TreeSynced)
                       else Failing(Some(id), error.value)
      ensures error.Some? ==> error.value.Fault?
    {
      hide During, Next;
      error := TryProceed(req, Rewrite(disk, Staging(id), Sealed(StagedTree(disk, id), id)));
      if error.None? {
        error := TryProceed(req, TreeFsync(disk, id));
      }
    }

    /** `_publish`: the generation's name and its temporary link (lines 395 to 399). */
    method NameGeneration(req: Request, active: Option<Id>, id: Id, value: Value) returns (error: Option<Error>)
      requires During(req) && phase == Publishing(active, id, value, TreeSynced)
      modifies `disk, `phase, `skipped, `log, `used, `history, `faulted
      ensures During(req) && history == old(history)
      ensures phase == if error.None? then Publishing(active, id, value, LinkSynced)
                       else Failing(Some(id), error.value)
      ensures error.Some? ==> error.value.Fault?
    {
      hide During, Next;
      error := TryProceed(req, RenamedDirectory(disk, id));
      if error.None? {
        error := TryProceed(req, NamesFsync(disk));
      }
      if error.None? {
        error := TryProceed(req, WithLink(disk, Temporary(id)));
      }
      if error.None? {
        error := TryProceed(req, PointerFsync(disk));
      }
    }

    /** The pointer switch and its verification (lines 400, 401 and 455 to 458). */
    method SwitchPointer(req: Request, active: Option<Id>, id: Id, value: Value) returns (error: Option<Error>)
      requires During(req) && phase == Publishing(active, id, value, LinkSynced)
      modifies `disk, `phase, `skipped, `log, `used, `history, `faulted
      ensures During(req) && Extends(old(history), history, req)
      ensures error.None? ==> phase == SweepingOld(id, value, disk.generations.Keys - {Generation(id)})
      ensures error.Some? ==> phase == Failing(Some(id), error.value)
      ensures error.None? ==> Grown(old(history), history, req)
      ensures error.Some? ==> Fits(disk, old(history), history, req, error.value)
    {
      hide During, Next, PublicationRefused;
      NewIsThere(req);
      error := TryProceed(req, SwitchedTo(disk, id));
      if error.Some? {
        return;
      }
      error := TryProceed(req, PointerFsync(disk));
      if error.Some? {
        return;
      }
      var intact := disk.current == Some(id) && Intact(disk, id);
      var valid := intact && req.validate(disk.generations[Generation(id)]);
      PublicationVerdict(req);
      Proceed(req, disk);
      return if valid then None else if intact then Some(Rejected) else Some(Unverified);
    }

    /** `_clean_legacy_state` and the normal return (line 296). */
    method CleanLegacy(req: Request, value: Value) returns (error: Option<Error>)
      requires During(req) && phase == ClearingLegacy(value)
      modifies `disk, `phase, `skipped, `log, `used, `history, `faulted
      ensures During(req) && history == old(history)
      ensures phase == if error.None? then Returned(value) else Failing(None, error.value)
      ensures error.Some? ==> error.value.Fault?
      ensures disk.current == old(disk).current && View(disk) == old(View(disk))
    {
      hide During, AdvancePublishing, Decide;
      while disk.legacy != map[]
        invariant During(req) && history == old(history) && phase == ClearingLegacy(value)
        invariant disk.current == old(disk).current && View(disk) == old(View(disk))
        decreases |disk.legacy|
      {
        var fault := Faulty(req);
        if fault {
          FailHere(req);
          return Some(Fault);
        }
        var e :| e in disk.legacy;
        ghost var keys := disk.legacy.Keys;
        Perform(req, DropLegacy(e), WithoutLegacy(disk, e));
        assert disk.legacy.Keys == keys - {e};
      }
      Perform(req, Advance, PointerFsync(disk));
      return None;
    }

    /** The exception handler (line 459): staging is removed if possible. */
    method Abort(req: Request, staging: Option<Id>, error: Error)
      requires During(req) && phase == Failing(staging, error)
      modifies `disk, `phase, `skipped, `log, `used, `history, `faulted
      ensures During(req) && history == old(history)
      ensures phase == Failed(error)
      ensures disk.current == old(disk).current && View(disk) == old(View(disk))
      ensures Source(disk, disk.current) == old(Source(disk, disk.current))
    {
      hide During, AdvancePublishing, Decide;
      if staging.Some? && Staging(staging.value) in disk.generations {
        CurrentIsThere(req);
        var _ := RemoveOwned(req, Staging(staging.value));
        ViewUndisturbed(old(disk), disk, staging.value);
      }
      Perform(req, Advance, disk);
    }

    /** Receipt, validation, `_publish` and its verification (lines 451 to 458). */
    method Publish(req: Request, active: Option<Id>, id: Id, value: Value) returns (error: Option<Error>)
      requires During(req) && phase == Publishing(active, id, value, Mutated)
      modifies `disk, `phase, `skipped, `log, `used, `history, `faulted
      ensures During(req) && Extends(old(history), history, req)
      ensures error.None? ==> phase == SweepingOld(id, value, disk.generations.Keys - {Generation(id)})
      ensures error.Some? ==> phase == Failing(Some(id), error.value)
      ensures error.None? ==> Grown(old(history), history, req)
      ensures error.Some? ==> Fits(disk, old(history), history, req, error.value)
    {
      hide During;
      error := StageResult(req, active, id, value);
      if error.None? {
        error := SealGeneration(req, active, id, value);
      }
      if error.None? {
        error := NameGeneration(req, active, id, value);
      }
      if error.None? {
        error := SwitchPointer(req, active, id, value);
      }
    }

    /** An outcome that is not to be published: the staging directory goes (lines 448 to 450). */
    method Discard(req: Request, id: Id, value: Value) returns (removed: bool)
      requires During(req) && phase == Discarding(id, value)
      modifies `disk, `phase, `skipped, `log, `used, `history, `faulted
      ensures During(req) && history == old(history)
      ensures phase == if removed then Returned(value) else Failing(Some(id), Fault)
      ensures removed ==> Unpublished(disk, req, value)
    {
      hide During, AdvanceFrom, Source, StagedTree, Unpublished;
      DiscardedIsUnpublished(req);
      CurrentIsThere(req);
      removed := RemoveOwned(req, Staging(id));
      ViewUndisturbed(old(disk), disk, id);
      SameReadings(old(disk), disk, req, value);
      if !removed {
        FailHere(req);
      }
    }

    /** The guarded part of `mutate_state` (lines 439 to 458): builds one generation.
      Ok(None) means the generation was published. */
    method BuildGeneration(req: Request, active: Option<Id>, id: Id)
      returns (result: Result<(Value, bool), (Error, bool)>)
      requires During(req) && phase == Creating(active)
      requires id !in used
      requires Staging(id) !in disk.generations && Generation(id) !in disk.generations
      modifies `disk, `phase, `skipped, `log, `used, `history, `faulted
      ensures During(req) && Extends(old(history), history, req)
      ensures result.Ok? ==>
        var (value, published) := result.value;
        phase == if published then SweepingOld(id, value, disk.generations.Keys - {Generation(id)})
                 else Returned(value)
      ensures result.Err? ==>
        phase == Failing(if result.error.1 then Some(id) else None, result.error.0)
      ensures result.Ok? && result.value.1 ==> Grown(old(history), history, req)
      ensures result.Ok? && !result.value.1 ==> history == old(history) && Unpublished(disk, req, result.value.0)
      ensures result.Err? ==> Fits(disk, old(history), history, req, result.error.0)
    {
      hide During, AdvanceFrom, Source, StagedTree, Unpublished, Deserved;
      var fault := Faulty(req);
      if fault {
        FailHere(req);
        return Err((Fault, false));
      }
      Perform(req, Create(id), NewDirectory(disk, Staging(id)));
      var failed := CopySource(req, active, id);
      if failed.Some? {
        return Err((failed.value, true));
      }
      var outcome := RunMutator(req, active, id);
      if outcome.Err? {
        return Err((outcome.error, true));
      }
      var value := outcome.value;
      if !req.publishIf(value) {
        var removed := Discard(req, id, value);
        return if removed then Ok((value, false)) else Err((Fault, true));
      }
      failed := Publish(req, active, id, value);
      if failed.Some? {
        return Err((failed.value, true));
      }
      return Ok((value, true));
    }

    /** A completed operation is returned when its generation is valid (lines 434 to 437). */
    method Return(req: Request, g: Id, value: Value) returns (result: Result<Option<Value>, Error>)
      requires During(req) && phase == Replaying(g, value)
      modifies `disk, `phase, `skipped, `log, `used, `history
      ensures During(req) && history == old(history) && used == old(used) && disk == old(disk)
      ensures result.Ok? ==>
        result.value == Some(value) && phase == ClearingLegacy(value) && Replayed(disk, req, value)
      ensures result.Err? ==> phase == Failing(None, result.error) && Deserved(disk, [], req, result.error)
    {
      hide During, AdvancePublishing, Replayed, Deserved;
      var valid := Generation(g) in disk.generations && req.validate(disk.generations[Generation(g)]);
      ReplayVerdict(req, valid);
      Perform(req, Advance, disk);
      return if valid then Ok(Some(value)) else Err(Rejected);
    }

    /** The receipt decides whether to replay or to build (lines 433 to 438). */
    method Consult(req: Request, active: Option<Id>) returns (result: Result<Option<Value>, Error>)
      requires During(req) && phase == SweepingUnreferenced(active, {})
      modifies `disk, `phase, `skipped, `log, `used, `history
      ensures During(req) && history == old(history) && used == old(used) && disk == old(disk)
      ensures result.Ok? ==>
        if result.value.None? then phase == Creating(active) else phase == ClearingLegacy(result.value.value)
      ensures result.Err? ==> phase == Failing(None, result.error)
      ensures result.Ok? && result.value.Some? ==> Replayed(disk, req, result.value.value)
      ensures result.Err? ==> Deserved(disk, [], req, result.error)
    {
      hide During, AdvancePublishing, Replayed, Deserved;
      Perform(req, Advance, disk);
      DecideMeans(req, disk, active);
      var decision := Decide(req, disk, active);
      hide Decide;
      Perform(req, Advance, disk);
      match decision {
        case Failing(_, error) =>
          FailingIsDeserved(req);
          return Err(error);
        case Replaying(g, value) => result := Return(req, g, value);
        case _ => return Ok(None);
      }
    }

    /** Everything before the decision to build (lines 429 to 438).  Ok(None): build a
      generation from `active`; Ok(Some(v)): the operation already completed with v. */
    method Open(req: Request) returns (result: Result<Option<Value>, Error>)
      requires During(req) && phase == Entered
      modifies `disk, `phase, `skipped, `log, `used, `history, `faulted
      ensures During(req) && history == old(history) && used == old(used)
      ensures result.Ok? ==>
        if result.value.None? then phase == Creating(disk.current) else phase == ClearingLegacy(result.value.value)
      ensures result.Err? ==> phase == Failing(None, result.error)
      ensures result.Ok? && result.value.Some? ==> Replayed(disk, req, result.value.value)
      ensures result.Err? ==> Fits(disk, history, history, req, result.error)
    {
      hide During;
      CleanStaging(req);
      var failed := CleanLinks(req);
      if failed.Some? {
        return Err(failed.value);
      }
      if disk.current.Some? && !Intact(disk, disk.current.value) {
        Perform(req, Advance, disk);
        return Err(Broken);
      }
      var active := disk.current;
      var kept := if active.Some? then {Generation(active.value)} else {};
      Perform(req, Advance, disk);
      failed := CleanGenerations(req, disk.generations.Keys - kept);
      if failed.Some? {
        return Err(failed.value);
      }
      result := Consult(req, active);
    }

    /** `_clean_old_generations` after a publication (line 468). */
    method CleanOld(req: Request, id: Id, value: Value) returns (error: Option<Error>)
      requires During(req) && phase == SweepingOld(id, value, disk.generations.Keys - {Generation(id)})
      modifies `disk, `phase, `skipped, `log, `used, `history, `faulted
      ensures During(req) && history == old(history)
      ensures phase == if error.None? then ClearingLegacy(value) else Failing(None, error.value)
      ensures error.Some? ==> error.value.Unexpected?
      ensures error.None? ==> Confirmed(history, req, value)
    {
      hide During, Undisturbed, Confirmed;
      SweptIsConfirmed(req);
      error := CleanGenerations(req, disk.generations.Keys - {Generation(id)});
      if error.None? {
        Perform(req, Advance, disk);
      }
    }

    /** The call up to its normal return, or to the exception and the staging
      directory the handler has to remove. */
    method Attempt(req: Request, id: Id) returns (result: Result<Value, (Error, Option<Id>)>)
      requires During(req) && phase == Entered && id !in used
      modifies `disk, `phase, `skipped, `log, `used, `history, `faulted
      ensures During(req) && Extends(old(history), history, req)
      ensures phase == match result
        case Ok(value) => Returned(value)
        case Err((error, staging)) => Failing(staging, error)
      ensures match result
        case Ok(value) => Due(disk, old(history), history, req, value)
        case Err((error, _)) => Fits(disk, old(history), history, req, error)
    {
      hide During;
      var begun := Open(req);
      if begun.Err? {
        return Err((begun.error, None));
      }
      var value;
      if begun.value.Some? {
        value := begun.value.value;
      } else {
        FreshNames(req, id);
        var built := BuildGeneration(req, disk.current, id);
        if built.Err? {
          return Err((built.error.0, if built.error.1 then Some(id) else None));
        }
        value := built.value.0;
        if !built.value.1 {
          return Ok(value);
        }
        var failed := CleanOld(req, id, value);
        if failed.Some? {
          return Err((failed.value, None));
        }
      }
      var failed := CleanLegacy(req, value);
      return if failed.None? then Ok(value) else Err((failed.value, None));
    }

    /** What the invariant says of an error. */
    lemma FailingIsDeserved(req: Request)
      requires During(req) && phase.Failing?
      ensures Deserved(disk, history, req, phase.error)
      ensures !phase.error.Rejected? ==> Deserved(disk, [], req, phase.error)
      ensures !phase.error.Broken?
    {
      hide DiskInv, Chain, CallRun;
    }

    lemma RefusedDraft(req: Request)
      requires During(req) && phase.Publishing? && phase.stage.Recorded?
      requires !req.validate(StagedTree(disk, phase.id))
      ensures Deserved(disk, [], req, Rejected)
    {
      hide DiskInv, Chain, CallRun, Mutation;
    }

    lemma NewIsThere(req: Request)
      requires During(req) && phase.Publishing? && phase.stage.LinkSynced?
      ensures Generation(phase.id) in disk.generations
    {
      hide DiskInv, Chain, CallRun;
    }

    lemma PublicationVerdict(req: Request)
      requires During(req) && phase.Publishing? && phase.stage.PointerSynced?
      ensures disk.current == Some(phase.id) && Intact(disk, phase.id)
      ensures !req.validate(disk.generations[Generation(phase.id)]) ==> PublicationRefused(history, req)
    {
      hide Chain, CallRun;
    }

    lemma SweptIsConfirmed(req: Request)
      requires During(req) && phase.SweepingOld?
      ensures Confirmed(history, req, phase.value)
    {
      hide DiskInv, Chain, CallRun;
    }

    lemma CurrentIsThere(req: Request)
      requires During(req)
      ensures disk.current.Some? ==> Generation(disk.current.value) in disk.generations
    {
      hide WriterInv, Chain, CallRun;
    }

    lemma DiscardedIsUnpublished(req: Request)
      requires During(req) && phase.Discarding?
      ensures Unpublished(disk, req, phase.value) && Staging(phase.id) in disk.generations
    {
      hide DiskInv, Chain, CallRun;
    }

    lemma ReplayVerdict(req: Request, valid: bool)
      requires During(req) && phase.Replaying?
      requires valid <==> Generation(phase.id) in disk.generations && req.validate(disk.generations[Generation(phase.id)])
      ensures if valid then Replayed(disk, req, phase.value) else Deserved(disk, [], req, Rejected)
    {
      CurrentIsThere(req);
      hide DiskInv, Chain, CallRun;
    }

    lemma FreshNames(req: Request, id: Id)
      requires During(req) && id !in used
      ensures Staging(id) !in disk.generations && Generation(id) !in disk.generations
    {
      hide WriterInv, Chain, CallRun;
    }

    lemma EndIsSettled(req: Request)
      requires During(req)
      ensures Settled()
      ensures CallRun(req, start, log) == Some(Here()) && Drawn(drawnBefore, log) == Some(used)
      ensures phase == Failed(Unexpected) ==> Blamed(disk, faulted)
      ensures phase == Failed(Fault) ==> faulted
      ensures phase.Returned? ==> disk.legacy == map[] || Unpublished(disk, req, phase.value)
      ensures phase.Returned? && !faulted ==> disk.generations.Keys == CurrentName(disk) && disk.links == {}
    {
      hide Chain, CallRun;
    }

    lemma EndAnswered(
      d: Disk, u: set<Id>, before: seq<Publication>, req: Request, result: Result<Value, Error>)
      requires Settled() && DiskInv(d, u, origin, before) && Extends(before, history, req)
      requires match result
        case Ok(value) => Due(disk, before, history, req, value)
        case Err(error) => Fits(disk, before, history, req, error)
      ensures result == Err(Fault) || result == Err(Unexpected)
        || Answered(View(d), d.legacy, before, history, req, result)
      ensures View(disk) == if history == before then View(d) else Some(history[|history| - 1].tree)
    {
      ViewOfHistory(d, u, origin, before);
      ViewOfHistory(disk, used, origin, history);
      hide DiskInv, Due, Fits, Answered, View, Chain;
      EndAnswers(d, disk, u, used, origin, before, history, req, result);
    }

    /** A call that just took the lock. */
    ghost method Begin(req: Request)
      requires Settled()
      modifies `start, `drawnBefore, `phase, `skipped, `log, `faulted
      ensures During(req) && !faulted
      ensures start == Config(disk, Entered, false) && drawnBefore == used && phase == Entered
    {
      start, drawnBefore, phase, skipped, log := Config(disk, Entered, false), used, Entered, false, [];
      faulted := false;
      hide Chain, DiskInv;
    }

    /** `mutate_state` while it holds the lock (line 418).  Whatever fails on the way,
      its operations are a run of the call machine that ends as the result says. */
    method MutateState(req: Request, id: Id) returns (result: Result<Value, Error>)
      requires Settled() && id !in used
      modifies this
      ensures Settled()
      ensures start == Config(old(disk), Entered, false)
      ensures CallRun(req, start, log) == Some(Here())
      ensures Drawn(old(used), log) == Some(used)
      ensures phase == if result.Ok? then Returned(result.value) else Failed(result.error)
      ensures origin == old(origin) && Extends(old(history), history, req)
      ensures (result == Err(Fault) && faulted)
        || (result == Err(Unexpected) && Blamed(disk, faulted))
        || Answered(old(View(disk)), old(disk).legacy, old(history), history, req, result)
      ensures View(disk) == if history == old(history) then old(View(disk)) else Some(history[|history| - 1].tree)
      ensures result.Ok? ==> disk.legacy == map[] || Unpublished(disk, req, result.value)
      ensures result.Ok? && !faulted ==> disk.generations.Keys == CurrentName(disk) && disk.links == {}
    {
      hide DiskInv, Chain, Due, Fits, Answered, Unpublished, During, CallRun, Drawn, CurrentName, View, Source, Blamed;
      Begin(req);
      var attempt := Attempt(req, id);
      if attempt.Err? {
        ghost var before := disk;
        FailingIsDeserved(req);
        Abort(req, attempt.error.1, attempt.error.0);
        FitsStays(before, disk, old(history), history, req, attempt.error.0);
      }
      EndIsSettled(req);
      result := if attempt.Ok? then Ok(attempt.value) else Err(attempt.error.0);
      EndAnswered(old(disk), old(used), old(history), req, result);
    }
  }

  lemma DecideMeans(req: Request, disk: Disk, active: Option<Id>)
    ensures match Decide(req, disk, active)
      case Creating(a) => a == active
      case Replaying(_, _) => true
      case Failing(staging, error) => staging.None? && (error.Reused? || error.Undecodable?)
      case _ => false
  {
  }

  /** Removing a staging directory changes nothing that readers or calls start from. */
  lemma ViewUndisturbed(before: Disk, after: Disk, id: Id)
    requires Undisturbed(before, after, {Staging(id)})
    requires before.current.Some? ==> Generation(before.current.value) in before.generations
    ensures after.current == before.current && View(after) == View(before)
    ensures Source(after, after.current) == Source(before, before.current)
  {
  }

  lemma UndisturbedFurther(before: Disk, between: Disk, after: Disk, n: Name, names: set<Name>)
    requires Undisturbed(before, between, names) && Undisturbed(between, after, {n}) && n in names
    ensures Undisturbed(before, after, names)
  {
  }

  /** What removing `names` leaves alone. */
  ghost predicate Undisturbed(before: Disk, after: Disk, names: set<Name>) {
    && after.links == before.links
    && after.current == before.current
    && after.legacy == before.legacy
    && after.pointers == before.pointers
    && (forall n: Name :: n in before.generations && n !in names ==>
          n in after.generations && after.generations[n] == before.generations[n])
  }
}
