/** What every transition of a `mutate_state` call keeps. */
module StateInvariant {
  import opened Wrappers
  import opened StateDisk
  import opened StateProtocol

  /** The tree the `i`-th publication was built from. */
  function BaseAt(history: seq<Publication>, origin: Tree, i: nat): Tree
    requires i < |history|
  {
    if i == 0 then origin else Carried(history[i - 1].tree)
  }

  /** A publication is the whole outcome of its mutator, validated and sealed. */
  ghost predicate Successful(p: Publication) {
    && p.req.run(p.base).outcome.Some?
    && p.req.publishIf(p.req.run(p.base).outcome.value)
    && p.req.validate(Mutation(p.req, p.base))
    && p.tree == Sealed(Mutation(p.req, p.base), p.id)
    && (p.req.operation.Some? ==> Receipt(p.req.operation.value.id) !in p.base)
  }

  /** The `i`-th publication succeeds the one before it. */
  ghost predicate Continues(history: seq<Publication>, origin: Tree, i: nat)
    requires i < |history|
  {
    Successful(history[i]) && history[i].base == BaseAt(history, origin, i)
  }

  ghost predicate Chain(history: seq<Publication>, origin: Tree) {
    forall i :: 0 <= i < |history| ==> Continues(history, origin, i)
  }

  function Latest(history: seq<Publication>): Option<Id> {
    if history == [] then None else Some(history[|history| - 1].id)
  }

  /** A power loss leaves this generation where it is, with every file in it. */
  predicate Durable(d: Disk, id: Id) {
    && Dirty(d, id) == {}
    && Generation(id) in d.generations && Generation(id) !in d.looseNames
    && Staging(id) !in d.generations && Staging(id) !in d.looseNames
  }

  /** The last publication is what `current` names, complete and durable. */
  ghost predicate Anchored(d: Disk, history: seq<Publication>) {
    && d.current == Latest(history)
    && (history != [] ==>
          var last := history[|history| - 1];
          && Generation(last.id) in d.generations
          && d.generations[Generation(last.id)] == last.tree
          && Intact(d, last.id)
          && Durable(d, last.id))
  }

  ghost predicate DiskInv(d: Disk, used: set<Id>, origin: Tree, history: seq<Publication>) {
    && Anchored(d, history)
    && (history == [] ==> d.legacy == origin && d.dirtyLegacy == {})
    && (forall e: Entry :: e in origin ==> e.Data?)
    && (forall n: Name :: n in d.generations && !n.Foreign? ==> n.id in used)
    && (forall n: Name :: n in d.looseNames ==> !n.Foreign? && n.id in used)
    && d.current in d.pointers
    && (forall g: Id :: Some(g) in d.pointers ==> g in used)
    && (forall i :: 0 <= i < |history| ==> history[i].id in used)
  }

  function CurrentName(d: Disk): set<Name> {
    if d.current.Some? then {Generation(d.current.value)} else {}
  }

  /** If no removal was skipped, nothing but the active generation and `extra` is left. */
  predicate Tidy(d: Disk, skipped: bool, extra: set<Name>) {
    !skipped ==> d.generations.Keys <= CurrentName(d) + extra && d.links == {}
  }

  predicate NoStaging(d: Disk) {
    forall n: Name :: n in d.generations ==> !n.Staging?
  }

  /** The operation has no receipt yet in the generation the call starts from. */
  predicate NewOperation(d: Disk, req: Request, active: Option<Id>) {
    req.operation.Some? ==> Receipt(req.operation.value.id) !in Source(d, active)
  }

  /** The call owns `staging-id`, which nothing published or durable mentions. */
  predicate Owns(d: Disk, used: set<Id>, history: seq<Publication>, active: Option<Id>, id: Id) {
    && active == d.current
    && id in used
    && Some(id) !in d.pointers
    && d.current != Some(id)
    && (forall i :: 0 <= i < |history| ==> history[i].id != id)
  }

  predicate Drafting(d: Disk, used: set<Id>, history: seq<Publication>, active: Option<Id>, id: Id) {
    && Owns(d, used, history, active, id)
    && Staging(id) in d.generations
    && Generation(id) !in d.generations && Generation(id) !in d.looseNames
  }

  /** The staged content a publication stage must hold. */
  ghost predicate Draft(req: Request, base: Tree, id: Id, value: Value, stage: Stage, t: Tree) {
    && req.run(base).outcome == Some(value)
    && req.publishIf(value)
    && (match stage
        case Mutated => t == ApplyAll(req.run(base).writes, base)
        case Recorded => t == Mutation(req, base)
        case Validated => t == Mutation(req, base) && req.validate(t)
        case _ => t == Sealed(Mutation(req, base), id) && req.validate(Mutation(req, base)))
  }

  predicate BeforeRename(stage: Stage) {
    stage.Mutated? || stage.Recorded? || stage.Validated? || stage.Manifested? || stage.TreeSynced?
  }

  ghost predicate PublishingInv(
    d: Disk, used: set<Id>, origin: Tree, history: seq<Publication>, req: Request,
    active: Option<Id>, id: Id, value: Value, stage: Stage, skipped: bool)
  {
    if BeforeRename(stage) then
      && Drafting(d, used, history, active, id)
      && NewOperation(d, req, active)
      && Draft(req, Source(d, active), id, value, stage, d.generations[Staging(id)])
      && (stage.TreeSynced? ==> Dirty(d, id) == {})
      && Tidy(d, skipped, {Staging(id)})
    else if stage.Switched? || stage.PointerSynced? then
      && history != []
      && Answers(history, req, value)
      && history[|history| - 1].id == id
      && active == Latest(history[..|history| - 1])
      && (stage.PointerSynced? ==> d.pointers == {Some(id)})
      && (stage.Switched? ==>
            && d.pointers == {active, Some(id)} && active != Some(id)
            && (if active.None? then d.legacy == origin && d.dirtyLegacy == {}
                else Anchored(d.(current := active), history[..|history| - 1])))
      && (!skipped ==> d.links == {} && forall n: Name :: n in d.generations ==> n.Generation?)
    else
      && Owns(d, used, history, active, id)
      && Generation(id) in d.generations
      && NewOperation(d, req, active)
      && Draft(req, Source(d, active), id, value, stage, d.generations[Generation(id)])
      && Dirty(d, id) == {} && Staging(id) !in d.generations
      && (!stage.Renamed? ==> Durable(d, id))
      && (stage.LinkSynced? ==> d.pointers == {active})
      && (stage.Linked? || stage.LinkSynced? ==> Temporary(id) in d.links)
      && (!skipped ==> d.generations.Keys <= CurrentName(d) + {Generation(id)})
      && (!skipped ==> d.links <= if stage.Renamed? || stage.NamesSynced? then {} else {Temporary(id)})
  }

  /** This call published the latest generation and computed `value` doing it. */
  ghost predicate Answers(history: seq<Publication>, req: Request, value: Value) {
    && history != []
    && history[|history| - 1].req == req
    && req.run(history[|history| - 1].base).outcome == Some(value)
  }

  /** The active generation holds the receipt of this operation with `value`. */
  ghost predicate Receipted(d: Disk, req: Request, value: Value) {
    && req.operation.Some?
    && View(d).Some?
    && Receipt(req.operation.value.id) in View(d).value
    && View(d).value[Receipt(req.operation.value.id)] == ReceiptOf(req.operation.value.kind, value)
  }

  /** `value` is what this call's mutator computed from the active generation for a new
    operation, and the caller's condition says not to publish it. */
  ghost predicate Unpublished(d: Disk, req: Request, value: Value) {
    && req.run(Source(d, d.current)).outcome == Some(value)
    && !req.publishIf(value)
    && NewOperation(d, req, d.current)
  }

  /** An unowned object is there, or an owned one could not be removed. */
  predicate Blamed(d: Disk, skipped: bool) {
    || skipped
    || (exists n: Name :: n in d.generations && n.Foreign?)
    || (exists l: Link :: l in d.links && l.Stray?)
  }

  /** Errors that reachable states exclude or explain. */
  ghost predicate Explained(d: Disk, req: Request, error: Error, skipped: bool) {
    && !error.Broken?
    && !error.Unverified?
    && !error.Busy?
    && (error.Unexpected? ==> Blamed(d, skipped))
  }

  /** This call published the latest generation, and it passed its validator there too. */
  ghost predicate Confirmed(history: seq<Publication>, req: Request, value: Value) {
    Answers(history, req, value) && req.validate(history[|history| - 1].tree)
  }

  /** The active generation records `value` for this very operation, in a form the caller
    can read, and passes the caller's validator. */
  ghost predicate Replayed(d: Disk, req: Request, value: Value) {
    Receipted(d, req, value) && req.operation.value.decodes(value) && req.validate(View(d).value)
  }

  /** Under this call's operation ID something else is recorded. */
  ghost predicate RecordedOtherwise(d: Disk, req: Request) {
    && req.operation.Some? && View(d).Some?
    && Receipt(req.operation.value.id) in View(d).value
    && forall value :: !Receipted(d, req, value)
  }

  ghost predicate ReplayRefused(d: Disk, req: Request) {
    exists value :: Receipted(d, req, value) && req.operation.value.decodes(value) && !req.validate(View(d).value)
  }

  ghost predicate DraftRefused(d: Disk, req: Request) {
    var base := Source(d, d.current);
    && NewOperation(d, req, d.current)
    && req.run(base).outcome.Some? && req.publishIf(req.run(base).outcome.value)
    && !req.validate(Mutation(req, base))
  }

  ghost predicate PublicationRefused(history: seq<Publication>, req: Request) {
    history != [] && history[|history| - 1].req == req && !req.validate(history[|history| - 1].tree)
  }

  /** What each error that a call decides on says of the generation it found, or of the
    one it published. */
  ghost predicate Deserved(d: Disk, history: seq<Publication>, req: Request, error: Error) {
    match error
    case Reused => RecordedOtherwise(d, req)
    case Undecodable => exists value :: Receipted(d, req, value) && !req.operation.value.decodes(value)
    case Raised => NewOperation(d, req, d.current) && req.run(Source(d, d.current)).outcome.None?
    case Rejected => ReplayRefused(d, req) || DraftRefused(d, req) || PublicationRefused(history, req)
    case Broken => d.current.Some? && !Intact(d, d.current.value)
    case Unverified => false
    case Busy => false
    case Unexpected => true
    case Fault => true
  }

  lemma DeservedFrame(d: Disk, d': Disk, history: seq<Publication>, req: Request, error: Error)
    requires d'.current == d.current && d'.legacy == d.legacy && View(d') == View(d)
    ensures Deserved(d', history, req, error) == Deserved(d, history, req, error)
  {
    assert Source(d', d'.current) == Source(d, d.current);
    assert forall value :: Receipted(d', req, value) == Receipted(d, req, value);
  }

  /** Every file copied so far is as in the source. */
  ghost predicate CopyingInv(
    d: Disk, used: set<Id>, history: seq<Publication>, req: Request, active: Option<Id>, id: Id, skipped: bool)
  {
    && Drafting(d, used, history, active, id)
    && NewOperation(d, req, active)
    && (forall e: Entry :: e in d.generations[Staging(id)] ==>
          e in Source(d, active) && d.generations[Staging(id)][e] == Source(d, active)[e])
    && Tidy(d, skipped, {Staging(id)})
  }

  ghost predicate WriterInv(
    d: Disk, used: set<Id>, origin: Tree, history: seq<Publication>,
    req: Request, phase: Phase, skipped: bool)
  {
    match phase
    case Entered => !skipped
    case SweepingStaging(todo) =>
      !skipped ==> forall n: Name :: n in d.generations && n.Staging? ==> n in todo
    case SweepingLinks(links) =>
      && (!skipped ==> NoStaging(d) && d.links <= links)
      && (forall l: Link :: l.Stray? ==> (l in links <==> l in d.links))
    case Locating =>
      !skipped ==> NoStaging(d) && d.links == {}
    case SweepingUnreferenced(active, todo) =>
      && active == d.current
      && CurrentName(d) !! todo
      && (forall n: Name :: n in todo && n.Foreign? ==> n in d.generations)
      && (!skipped ==> NoStaging(d) && d.links == {} && d.generations.Keys <= CurrentName(d) + todo)
      && (!skipped ==> forall n: Name :: n in todo ==> !n.Staging?)
    case Deciding(active) =>
      && active == d.current
      && Tidy(d, skipped, {})
    case Replaying(id, value) =>
      && d.current == Some(id)
      && Receipted(d, req, value) && req.operation.value.decodes(value)
      && Tidy(d, skipped, {})
    case Creating(active) =>
      && active == d.current
      && NewOperation(d, req, active)
      && Tidy(d, skipped, {})
    case Copying(active, id) =>
      CopyingInv(d, used, history, req, active, id, skipped)
    case Mutating(active, id, rest, outcome) =>
      && Drafting(d, used, history, active, id)
      && NewOperation(d, req, active)
      && outcome == req.run(Source(d, active)).outcome
      && ApplyAll(rest, d.generations[Staging(id)])
         == ApplyAll(req.run(Source(d, active)).writes, Source(d, active))
      && Tidy(d, skipped, {Staging(id)})
    case Discarding(id, value) =>
      && Unpublished(d, req, value)
      && Staging(id) in d.generations
      && Tidy(d, skipped, {Staging(id)})
    case Publishing(active, id, value, stage) =>
      PublishingInv(d, used, origin, history, req, active, id, value, stage, skipped)
    case SweepingOld(id, value, todo) =>
      && d.current == Some(id)
      && Confirmed(history, req, value)
      && Generation(id) !in todo
      && (forall n: Name :: n in todo && n.Foreign? ==> n in d.generations)
      && (!skipped ==> forall n: Name :: n in todo ==> n.Generation?)
      && (!skipped ==> d.links == {} && d.generations.Keys <= CurrentName(d) + todo)
    case ClearingLegacy(value) =>
      && history != []
      && (Confirmed(history, req, value) || Replayed(d, req, value))
      && Tidy(d, skipped, {})
    case Failing(_, error) => Explained(d, req, error, skipped) && Deserved(d, history, req, error)
    case Returned(value) =>
      && (Confirmed(history, req, value) || Replayed(d, req, value) || Unpublished(d, req, value))
      && (d.legacy == map[] || Unpublished(d, req, value))
      && Tidy(d, skipped, {})
    case Failed(error) => Explained(d, req, error, skipped) && Deserved(d, history, req, error)
  }

  ghost predicate CallInv(c: Config, req: Request, used: set<Id>, origin: Tree, history: seq<Publication>) {
    && DiskInv(c.disk, used, origin, history)
    && WriterInv(c.disk, used, origin, history, req, c.phase, c.skipped)
  }

  // ------------------------------------------------------- one lemma a transition

  /** Disk changes away from the pointer, the active generation and the history. */
  lemma DiskInvFrame(d: Disk, d': Disk, used: set<Id>, origin: Tree, history: seq<Publication>)
    requires DiskInv(d, used, origin, history)
    requires d'.current == d.current
    requires d'.pointers == d.pointers || d'.pointers == {d.current}
    requires history == [] ==> d'.legacy == d.legacy && d'.dirtyLegacy <= d.dirtyLegacy
    requires d.current.Some? ==>
      && Generation(d.current.value) in d'.generations
      && d'.generations[Generation(d.current.value)] == d.generations[Generation(d.current.value)]
      && Durable(d', d.current.value)
    requires forall n: Name :: n in d'.generations && !n.Foreign? ==> n.id in used
    requires forall n: Name :: n in d'.looseNames ==> !n.Foreign? && n.id in used
    ensures DiskInv(d', used, origin, history)
  {
  }

  lemma SweptDropEntryKeepsInv(c: Config, c': Config, a: Act, req: Request, used: set<Id>, origin: Tree, history: seq<Publication>)
    requires CallInv(c, req, used, origin, history)
    requires Next(req, c, a) == Some(c')
    requires a.DropEntry? && Sweeping(c.phase)
    ensures CallInv(c', req, used, origin, history)
  {
    hide Deserved, Replayed, Unpublished, Confirmed;
    DiskInvFrame(c.disk, c'.disk, used, origin, history);
  }

  lemma StagedDropEntryKeepsInv(c: Config, c': Config, a: Act, req: Request, used: set<Id>, origin: Tree, history: seq<Publication>)
    requires CallInv(c, req, used, origin, history)
    requires Next(req, c, a) == Some(c')
    requires a.DropEntry? && !Sweeping(c.phase)
    ensures CallInv(c', req, used, origin, history)
  {
    if c.phase.Failing? {
      DeservedFrame(c.disk, c'.disk, history, req, c.phase.error);
    }
    hide Deserved;
    DiskInvFrame(c.disk, c'.disk, used, origin, history);
  }

  lemma DropEntryKeepsInv(c: Config, c': Config, a: Act, req: Request, used: set<Id>, origin: Tree, history: seq<Publication>)
    requires CallInv(c, req, used, origin, history)
    requires Next(req, c, a) == Some(c')
    requires a.DropEntry?
    ensures CallInv(c', req, used, origin, history)
  {
    hide CallInv, Next;
    if Sweeping(c.phase) {
      SweptDropEntryKeepsInv(c, c', a, req, used, origin, history);
    } else {
      StagedDropEntryKeepsInv(c, c', a, req, used, origin, history);
    }
  }

  lemma SweptDropRootKeepsInv(c: Config, c': Config, a: Act, req: Request, used: set<Id>, origin: Tree, history: seq<Publication>)
    requires CallInv(c, req, used, origin, history)
    requires Next(req, c, a) == Some(c')
    requires a.DropRoot? && Sweeping(c.phase)
    ensures CallInv(c', req, used, origin, history)
  {
    hide Deserved, Replayed, Unpublished, Confirmed;
    DiskInvFrame(c.disk, c'.disk, used, origin, history);
  }

  lemma StagedDropRootKeepsInv(c: Config, c': Config, a: Act, req: Request, used: set<Id>, origin: Tree, history: seq<Publication>)
    requires CallInv(c, req, used, origin, history)
    requires Next(req, c, a) == Some(c')
    requires a.DropRoot? && !Sweeping(c.phase)
    ensures CallInv(c', req, used, origin, history)
  {
    if c.phase.Failing? {
      DeservedFrame(c.disk, c'.disk, history, req, c.phase.error);
    }
    hide Deserved;
    DiskInvFrame(c.disk, c'.disk, used, origin, history);
  }

  lemma DropRootKeepsInv(c: Config, c': Config, a: Act, req: Request, used: set<Id>, origin: Tree, history: seq<Publication>)
    requires CallInv(c, req, used, origin, history)
    requires Next(req, c, a) == Some(c')
    requires a.DropRoot?
    ensures CallInv(c', req, used, origin, history)
  {
    hide CallInv, Next;
    if Sweeping(c.phase) {
      SweptDropRootKeepsInv(c, c', a, req, used, origin, history);
    } else {
      StagedDropRootKeepsInv(c, c', a, req, used, origin, history);
    }
  }

  lemma SkipKeepsInv(c: Config, c': Config, a: Act, req: Request, used: set<Id>, origin: Tree, history: seq<Publication>)
    requires CallInv(c, req, used, origin, history)
    requires Next(req, c, a) == Some(c')
    requires a.SkipChild?
    ensures CallInv(c', req, used, origin, history)
  {
  }

  lemma LinkKeepsInv(c: Config, c': Config, a: Act, req: Request, used: set<Id>, origin: Tree, history: seq<Publication>)
    requires CallInv(c, req, used, origin, history)
    requires Next(req, c, a) == Some(c')
    requires a.DropLink? || a.SkipLink? || a.RefuseLink?
    ensures CallInv(c', req, used, origin, history)
  {
    DiskInvFrame(c.disk, c'.disk, used, origin, history);
  }

  lemma RefuseKeepsInv(c: Config, c': Config, a: Act, req: Request, used: set<Id>, origin: Tree, history: seq<Publication>)
    requires CallInv(c, req, used, origin, history)
    requires Next(req, c, a) == Some(c')
    requires a.RefuseChild?
    ensures CallInv(c', req, used, origin, history)
  {
  }

  lemma CreateKeepsInv(c: Config, c': Config, a: Act, req: Request, used: set<Id>, origin: Tree, history: seq<Publication>)
    requires CallInv(c, req, used, origin, history)
    requires Next(req, c, a) == Some(c')
    requires a.Create? && a.id !in used
    ensures CallInv(c', req, used + {a.id}, origin, history)
  {
    hide Deserved, Explained, Replayed, Confirmed, Unpublished;
    DiskInvFrame(c.disk, c'.disk, used + {a.id}, origin, history);
  }

  lemma CopyStep(c: Config, c': Config, e: Entry, req: Request, used: set<Id>, origin: Tree, history: seq<Publication>)
    requires CallInv(c, req, used, origin, history)
    requires Next(req, c, CopyEntry(e)) == Some(c')
    ensures c.phase.Copying? && CopyingInv(c.disk, used, history, req, c.phase.active, c.phase.id, c.skipped)
    ensures e in Source(c.disk, c.phase.active)
    ensures c' == c.(disk := Rewrite(c.disk, Staging(c.phase.id),
                                     StagedTree(c.disk, c.phase.id)[e := Source(c.disk, c.phase.active)[e]]))
  {
    hide DiskInv, CopyingInv, Source, StagedTree, Rewrite;
  }

  lemma CopyingHolds(c: Config, req: Request, used: set<Id>, origin: Tree, history: seq<Publication>)
    requires c.phase.Copying? && DiskInv(c.disk, used, origin, history)
    requires CopyingInv(c.disk, used, history, req, c.phase.active, c.phase.id, c.skipped)
    ensures CallInv(c, req, used, origin, history)
  {
    hide DiskInv, CopyingInv;
  }

  lemma CopyKeepsInv(c: Config, c': Config, a: Act, req: Request, used: set<Id>, origin: Tree, history: seq<Publication>)
    requires CallInv(c, req, used, origin, history)
    requires Next(req, c, a) == Some(c')
    requires a.CopyEntry?
    ensures CallInv(c', req, used, origin, history)
  {
    hide WriterInv, Next;
    CopyStep(c, c', a.entry, req, used, origin, history);
    DiskInvFrame(c.disk, c'.disk, used, origin, history);
    CopyingHolds(c', req, used, origin, history);
  }

  lemma DropLegacyKeepsInv(c: Config, c': Config, a: Act, req: Request, used: set<Id>, origin: Tree, history: seq<Publication>)
    requires CallInv(c, req, used, origin, history)
    requires Next(req, c, a) == Some(c')
    requires a.DropLegacy?
    ensures CallInv(c', req, used, origin, history)
  {
    DiskInvFrame(c.disk, c'.disk, used, origin, history);
  }

  lemma FailKeepsInv(c: Config, c': Config, a: Act, req: Request, used: set<Id>, origin: Tree, history: seq<Publication>)
    requires CallInv(c, req, used, origin, history)
    requires Next(req, c, a) == Some(c')
    requires a.Fail?
    ensures CallInv(c', req, used, origin, history)
  {
  }

  /** What is known of a publication step, and what is to show. */
  lemma PublishingStep(c: Config, c': Config, req: Request, used: set<Id>, origin: Tree, history: seq<Publication>)
    requires CallInv(c, req, used, origin, history) && c.phase.Publishing?
    requires Next(req, c, Advance) == Some(c')
    ensures var Publishing(active, id, value, stage) := c.phase;
      && PublishingInv(c.disk, used, origin, history, req, active, id, value, stage, c.skipped)
      && c'.disk == StageDisk(req, c.disk, id, value, stage)
      && c'.phase == StagePhase(req, c.disk, active, id, value, stage)
      && c'.skipped == c.skipped
  {
    hide DiskInv, PublishingInv, StageDisk, StagePhase;
  }

  lemma PublishingHolds(c: Config, req: Request, used: set<Id>, origin: Tree, history: seq<Publication>)
    requires c.phase.Publishing? && DiskInv(c.disk, used, origin, history)
    requires PublishingInv(c.disk, used, origin, history, req, c.phase.active, c.phase.id, c.phase.value, c.phase.stage, c.skipped)
    ensures CallInv(c, req, used, origin, history)
  {
    hide DiskInv, PublishingInv;
  }

  lemma StampKeepsInv(c: Config, c': Config, a: Act, req: Request, used: set<Id>, origin: Tree, history: seq<Publication>)
    requires CallInv(c, req, used, origin, history)
    requires Next(req, c, a) == Some(c')
    requires a.Advance? && c.phase.Publishing?
    requires c.phase.stage.Mutated?
    ensures CallInv(c', req, used, origin, history)
  {
    hide WriterInv, Next, Answers;
    PublishingStep(c, c', req, used, origin, history);
    DiskInvFrame(c.disk, c'.disk, used, origin, history);
    PublishingHolds(c', req, used, origin, history);
  }

  lemma ValidateKeepsInv(c: Config, c': Config, a: Act, req: Request, used: set<Id>, origin: Tree, history: seq<Publication>)
    requires CallInv(c, req, used, origin, history)
    requires Next(req, c, a) == Some(c')
    requires a.Advance? && c.phase.Publishing?
    requires c.phase.stage.Recorded?
    ensures CallInv(c', req, used, origin, history)
  {
  }

  lemma SealKeepsInv(c: Config, c': Config, a: Act, req: Request, used: set<Id>, origin: Tree, history: seq<Publication>)
    requires CallInv(c, req, used, origin, history)
    requires Next(req, c, a) == Some(c')
    requires a.Advance? && c.phase.Publishing?
    requires c.phase.stage.Validated?
    ensures CallInv(c', req, used, origin, history)
  {
    hide WriterInv, Next, Answers;
    PublishingStep(c, c', req, used, origin, history);
    DiskInvFrame(c.disk, c'.disk, used, origin, history);
    PublishingHolds(c', req, used, origin, history);
  }

  lemma TreeSyncKeepsInv(c: Config, c': Config, a: Act, req: Request, used: set<Id>, origin: Tree, history: seq<Publication>)
    requires CallInv(c, req, used, origin, history)
    requires Next(req, c, a) == Some(c')
    requires a.Advance? && c.phase.Publishing?
    requires c.phase.stage.Manifested?
    ensures CallInv(c', req, used, origin, history)
  {
    hide WriterInv, Next, Answers;
    PublishingStep(c, c', req, used, origin, history);
    DiskInvFrame(c.disk, c'.disk, used, origin, history);
    PublishingHolds(c', req, used, origin, history);
  }

  lemma RenameKeepsInv(c: Config, c': Config, a: Act, req: Request, used: set<Id>, origin: Tree, history: seq<Publication>)
    requires CallInv(c, req, used, origin, history)
    requires Next(req, c, a) == Some(c')
    requires a.Advance? && c.phase.Publishing?
    requires c.phase.stage.TreeSynced?
    ensures CallInv(c', req, used, origin, history)
  {
    hide WriterInv, Next, Answers;
    PublishingStep(c, c', req, used, origin, history);
    DiskInvFrame(c.disk, c'.disk, used, origin, history);
    PublishingHolds(c', req, used, origin, history);
  }

  lemma RenamedKeepsInv(c: Config, c': Config, a: Act, req: Request, used: set<Id>, origin: Tree, history: seq<Publication>)
    requires CallInv(c, req, used, origin, history)
    requires Next(req, c, a) == Some(c')
    requires a.Advance? && c.phase.Publishing?
    requires c.phase.stage.Renamed?
    ensures CallInv(c', req, used, origin, history)
  {
    hide WriterInv, Next, Answers;
    PublishingStep(c, c', req, used, origin, history);
    DiskInvFrame(c.disk, c'.disk, used, origin, history);
    PublishingHolds(c', req, used, origin, history);
  }

  lemma LinkedKeepsInv(c: Config, c': Config, a: Act, req: Request, used: set<Id>, origin: Tree, history: seq<Publication>)
    requires CallInv(c, req, used, origin, history)
    requires Next(req, c, a) == Some(c')
    requires a.Advance? && c.phase.Publishing?
    requires c.phase.stage.NamesSynced?
    ensures CallInv(c', req, used, origin, history)
  {
    hide WriterInv, Next, Answers;
    PublishingStep(c, c', req, used, origin, history);
    DiskInvFrame(c.disk, c'.disk, used, origin, history);
    PublishingHolds(c', req, used, origin, history);
  }

  lemma LinkSyncKeepsInv(c: Config, c': Config, a: Act, req: Request, used: set<Id>, origin: Tree, history: seq<Publication>)
    requires CallInv(c, req, used, origin, history)
    requires Next(req, c, a) == Some(c')
    requires a.Advance? && c.phase.Publishing?
    requires c.phase.stage.Linked?
    ensures CallInv(c', req, used, origin, history)
  {
    hide WriterInv, Next, Answers;
    PublishingStep(c, c', req, used, origin, history);
    DiskInvFrame(c.disk, c'.disk, used, origin, history);
    PublishingHolds(c', req, used, origin, history);
  }

  lemma SwitchKeepsInv(c: Config, c': Config, a: Act, req: Request, used: set<Id>, origin: Tree, history: seq<Publication>)
    requires CallInv(c, req, used, origin, history)
    requires Next(req, c, a) == Some(c')
    requires IsSwitch(c.phase, a)
    ensures CallInv(c', req, used, origin, HistoryAfter(history, req, c, a))
  {
    hide WriterInv, Next;
    PublishingStep(c, c', req, used, origin, history);
    var history' := HistoryAfter(history, req, c, a);
    assert history'[..|history'| - 1] == history;
    assert DiskInv(c'.disk, used, origin, history');
    assert Anchored(c'.disk.(current := c.phase.active), history);
    PublishingHolds(c', req, used, origin, history');
  }

  lemma SwitchedKeepsInv(c: Config, c': Config, a: Act, req: Request, used: set<Id>, origin: Tree, history: seq<Publication>)
    requires CallInv(c, req, used, origin, history)
    requires Next(req, c, a) == Some(c')
    requires a.Advance? && c.phase.Publishing?
    requires c.phase.stage.Switched?
    ensures CallInv(c', req, used, origin, history)
  {
    hide WriterInv, Next, Answers;
    PublishingStep(c, c', req, used, origin, history);
    DiskInvFrame(c.disk, c'.disk, used, origin, history);
    PublishingHolds(c', req, used, origin, history);
  }

  lemma VerifiedKeepsInv(c: Config, c': Config, a: Act, req: Request, used: set<Id>, origin: Tree, history: seq<Publication>)
    requires CallInv(c, req, used, origin, history)
    requires Next(req, c, a) == Some(c')
    requires a.Advance? && c.phase.Publishing?
    requires c.phase.stage.PointerSynced?
    ensures CallInv(c', req, used, origin, history)
  {
    DiskInvFrame(c.disk, c'.disk, used, origin, history);
  }

  lemma CopiedKeepsInv(c: Config, c': Config, a: Act, req: Request, used: set<Id>, origin: Tree, history: seq<Publication>)
    requires CallInv(c, req, used, origin, history)
    requires Next(req, c, a) == Some(c')
    requires a.Advance? && c.phase.Copying?
    ensures CallInv(c', req, used, origin, history)
  {
    assert StagedTree(c.disk, c.phase.id) == Source(c.disk, c.phase.active);
  }

  lemma WriteKeepsInv(c: Config, c': Config, a: Act, req: Request, used: set<Id>, origin: Tree, history: seq<Publication>)
    requires CallInv(c, req, used, origin, history)
    requires Next(req, c, a) == Some(c')
    requires a.Advance? && c.phase.Mutating? && c.phase.rest != []
    ensures CallInv(c', req, used, origin, history)
  {
    hide Deserved, Explained, Replayed, Confirmed, Unpublished;
    DiskInvFrame(c.disk, c'.disk, used, origin, history);
  }

  lemma MutatedKeepsInv(c: Config, c': Config, a: Act, req: Request, used: set<Id>, origin: Tree, history: seq<Publication>)
    requires CallInv(c, req, used, origin, history)
    requires Next(req, c, a) == Some(c')
    requires a.Advance? && c.phase.Mutating? && c.phase.rest == []
    ensures CallInv(c', req, used, origin, history)
  {
    hide DiskInv, Anchored;
  }

  lemma LocatingKeepsInv(c: Config, c': Config, a: Act, req: Request, used: set<Id>, origin: Tree, history: seq<Publication>)
    requires CallInv(c, req, used, origin, history)
    requires Next(req, c, a) == Some(c')
    requires a.Advance? && c.phase.Locating?
    ensures CallInv(c', req, used, origin, history)
  {
  }

  lemma DecidingKeepsInv(c: Config, c': Config, a: Act, req: Request, used: set<Id>, origin: Tree, history: seq<Publication>)
    requires CallInv(c, req, used, origin, history)
    requires Next(req, c, a) == Some(c')
    requires a.Advance? && c.phase.Deciding?
    ensures CallInv(c', req, used, origin, history)
  {
  }

  lemma ReplayingKeepsInv(c: Config, c': Config, a: Act, req: Request, used: set<Id>, origin: Tree, history: seq<Publication>)
    requires CallInv(c, req, used, origin, history)
    requires Next(req, c, a) == Some(c')
    requires a.Advance? && c.phase.Replaying?
    ensures CallInv(c', req, used, origin, history)
  {
  }

  lemma SweepingKeepsInv(c: Config, c': Config, a: Act, req: Request, used: set<Id>, origin: Tree, history: seq<Publication>)
    requires CallInv(c, req, used, origin, history)
    requires Next(req, c, a) == Some(c')
    requires a.Advance? && (c.phase.Entered? || c.phase.SweepingStaging? || c.phase.SweepingLinks? || c.phase.SweepingUnreferenced?)
    ensures CallInv(c', req, used, origin, history)
  {
  }

  lemma ClosingKeepsInv(c: Config, c': Config, a: Act, req: Request, used: set<Id>, origin: Tree, history: seq<Publication>)
    requires CallInv(c, req, used, origin, history)
    requires Next(req, c, a) == Some(c')
    requires a.Advance? && (c.phase.SweepingOld? || c.phase.ClearingLegacy? || c.phase.Failing?)
    ensures CallInv(c', req, used, origin, history)
  {
    DiskInvFrame(c.disk, c'.disk, used, origin, history);
  }

  lemma PublishingKeepsInv(c: Config, c': Config, a: Act, req: Request, used: set<Id>, origin: Tree, history: seq<Publication>)
    requires CallInv(c, req, used, origin, history)
    requires Next(req, c, a) == Some(c')
    requires a.Advance? && c.phase.Publishing?
    ensures CallInv(c', req, used, origin, HistoryAfter(history, req, c, a))
  {
    hide DiskInv, WriterInv, Next;
    match c.phase.stage
    case Mutated => StampKeepsInv(c, c', a, req, used, origin, history);
    case Recorded => ValidateKeepsInv(c, c', a, req, used, origin, history);
    case Validated => SealKeepsInv(c, c', a, req, used, origin, history);
    case Manifested => TreeSyncKeepsInv(c, c', a, req, used, origin, history);
    case TreeSynced => RenameKeepsInv(c, c', a, req, used, origin, history);
    case Renamed => RenamedKeepsInv(c, c', a, req, used, origin, history);
    case NamesSynced => LinkedKeepsInv(c, c', a, req, used, origin, history);
    case Linked => LinkSyncKeepsInv(c, c', a, req, used, origin, history);
    case LinkSynced => SwitchKeepsInv(c, c', a, req, used, origin, history);
    case Switched => SwitchedKeepsInv(c, c', a, req, used, origin, history);
    case PointerSynced => VerifiedKeepsInv(c, c', a, req, used, origin, history);
  }

  lemma AdvanceKeepsInv(c: Config, c': Config, a: Act, req: Request, used: set<Id>, origin: Tree, history: seq<Publication>)
    requires CallInv(c, req, used, origin, history)
    requires Next(req, c, a) == Some(c')
    requires a.Advance?
    ensures CallInv(c', req, used, origin, HistoryAfter(history, req, c, a))
  {
    hide DiskInv, WriterInv;
    match c.phase
    case Publishing(_, _, _, _) => PublishingKeepsInv(c, c', a, req, used, origin, history);
    case Copying(_, _) => CopiedKeepsInv(c, c', a, req, used, origin, history);
    case Mutating(_, _, rest, _) =>
      if rest != [] {
        WriteKeepsInv(c, c', a, req, used, origin, history);
      } else {
        MutatedKeepsInv(c, c', a, req, used, origin, history);
      }
    case Locating => LocatingKeepsInv(c, c', a, req, used, origin, history);
    case Deciding(_) => DecidingKeepsInv(c, c', a, req, used, origin, history);
    case Replaying(_, _) => ReplayingKeepsInv(c, c', a, req, used, origin, history);
    case SweepingOld(_, _, _) => ClosingKeepsInv(c, c', a, req, used, origin, history);
    case ClearingLegacy(_) => ClosingKeepsInv(c, c', a, req, used, origin, history);
    case Failing(_, _) => ClosingKeepsInv(c, c', a, req, used, origin, history);
    case _ => SweepingKeepsInv(c, c', a, req, used, origin, history);
  }

  /** Every transition of a call keeps the invariant. */
  lemma {:induction false} ActKeepsInv(c: Config, c': Config, a: Act, req: Request, used: set<Id>, origin: Tree, history: seq<Publication>)
    requires CallInv(c, req, used, origin, history)
    requires Next(req, c, a) == Some(c')
    requires a.Create? ==> a.id !in used
    ensures CallInv(c', req, if a.Create? then used + {a.id} else used, origin, HistoryAfter(history, req, c, a))
  {
    hide DiskInv, WriterInv, Next;
    match a
    case Advance => AdvanceKeepsInv(c, c', a, req, used, origin, history);
    case DropEntry(_, _) => DropEntryKeepsInv(c, c', a, req, used, origin, history);
    case DropRoot(_) => DropRootKeepsInv(c, c', a, req, used, origin, history);
    case SkipChild(_) => SkipKeepsInv(c, c', a, req, used, origin, history);
    case DropLink(_) => LinkKeepsInv(c, c', a, req, used, origin, history);
    case SkipLink(_) => LinkKeepsInv(c, c', a, req, used, origin, history);
    case RefuseLink(_) => LinkKeepsInv(c, c', a, req, used, origin, history);
    case RefuseChild(_) => RefuseKeepsInv(c, c', a, req, used, origin, history);
    case Create(_) => CreateKeepsInv(c, c', a, req, used, origin, history);
    case CopyEntry(_) => CopyKeepsInv(c, c', a, req, used, origin, history);
    case DropLegacy(_) => DropLegacyKeepsInv(c, c', a, req, used, origin, history);
    case Fail => FailKeepsInv(c, c', a, req, used, origin, history);
  }

  /** What a pointer switch appends is a successful publication of the latest tree. */
  lemma SwitchPublishes(c: Config, req: Request, used: set<Id>, origin: Tree, history: seq<Publication>)
    requires CallInv(c, req, used, origin, history)
    requires IsSwitch(c.phase, Advance)
    ensures Generation(c.phase.id) in c.disk.generations
    ensures Successful(Publication(c.phase.id, c.disk.generations[Generation(c.phase.id)],
                                   Source(c.disk, c.phase.active), req))
    ensures Source(c.disk, c.phase.active)
            == if history == [] then origin else Carried(history[|history| - 1].tree)
  {
  }

  lemma ChainExtends(history: seq<Publication>, origin: Tree, p: Publication)
    requires Chain(history, origin) && Successful(p)
    requires p.base == if history == [] then origin else Carried(history[|history| - 1].tree)
    ensures Chain(history + [p], origin)
  {
    hide Successful;
    var history' := history + [p];
    forall i | 0 <= i < |history'| ensures Continues(history', origin, i) {
      if i < |history| {
        assert Continues(history, origin, i);
      }
    }
  }

  lemma SwitchExtendsChain(c: Config, a: Act, req: Request, used: set<Id>, origin: Tree, history: seq<Publication>)
    requires CallInv(c, req, used, origin, history) && Chain(history, origin)
    ensures Chain(HistoryAfter(history, req, c, a), origin)
  {
    hide CallInv, Chain, Successful;
    if IsSwitch(c.phase, a) {
      SwitchPublishes(c, req, used, origin, history);
      ChainExtends(history, origin,
                   Publication(c.phase.id, c.disk.generations[Generation(c.phase.id)],
                               Source(c.disk, c.phase.active), req));
    }
  }
}
