/** What holds in every run: any calls, any interleaving, a kill after any operation. */
module StateTheorems {
  import opened Wrappers
  import opened StateDisk
  import opened StateProtocol
  import opened StateInvariant
  import opened StateStore

  ghost predicate Locks(s: System) {
    && (s.exclusive.Some? ==> s.shared == {})
    && (forall p: Pid :: s.exclusive == Some(p) ==>
          ProcessOf(s, p).Writer? || (ProcessOf(s, p).Reader? && ProcessOf(s, p).exclusive))
    && (forall p: Pid :: p in s.shared ==> ProcessOf(s, p).Reader? && !ProcessOf(s, p).exclusive)
    && (forall p: Pid :: ProcessOf(s, p).Writer? ==> s.exclusive == Some(p))
    && (forall p: Pid :: ProcessOf(s, p).Reader? ==>
          if ProcessOf(s, p).exclusive then s.exclusive == Some(p) else p in s.shared)
  }

  ghost predicate Bound(s: System) {
    forall p: Pid :: ProcessOf(s, p).Reader? && ProcessOf(s, p).bound.Some? ==>
      && ProcessOf(s, p).bound.value == s.disk.current
      && (s.disk.current.None? ==> s.disk.legacy == map[])
  }

  ghost predicate WritersInv(s: System) {
    forall p: Pid :: ProcessOf(s, p).Writer? ==>
      WriterInv(s.disk, s.used, s.origin, s.history,
                ProcessOf(s, p).req, ProcessOf(s, p).phase, ProcessOf(s, p).skipped)
  }

  ghost predicate SystemInv(s: System) {
    && DiskInv(s.disk, s.used, s.origin, s.history)
    && Chain(s.history, s.origin)
    && Locks(s)
    && Bound(s)
    && WritersInv(s)
  }

  // ------------------------------------------------------------- preservation

  /** Locking alone: no two writers, and no writer beside a reader. */
  lemma StepKeepsLocks(s: System, e: Event, s': System)
    requires Locks(s)
    requires Step(s, e) == Some(s')
    ensures Locks(s')
  {
    hide Next, HistoryAfter;
    assert forall q: Pid :: q != e.pid ==> ProcessOf(s', q) == ProcessOf(s, q);
  }

  lemma WriterStepKeepsInv(s: System, p: Pid, a: Act, s': System)
    requires SystemInv(s)
    requires Step(s, WriterStep(p, a)) == Some(s')
    ensures SystemInv(s')
  {
    hide Next, HistoryAfter, CallInv, Chain, Locks;
    var w := ProcessOf(s, p);
    var c := ConfigOf(s, p);
    var c' := Next(w.req, c, a).value;
    ConfigInv(s, p);
    hide SystemInv;
    StepKeepsLocks(s, WriterStep(p, a), s');
    ActKeepsInv(c, c', a, w.req, s.used, s.origin, s.history);
    SwitchExtendsChain(c, a, w.req, s.used, s.origin, s.history);
    assert ConfigOf(s', p) == c';
    AloneInv(s', p);
  }

  /** What the invariant says of a call. */
  lemma ConfigInv(s: System, p: Pid)
    requires SystemInv(s) && ProcessOf(s, p).Writer?
    ensures CallInv(ConfigOf(s, p), ProcessOf(s, p).req, s.used, s.origin, s.history)
    ensures Chain(s.history, s.origin) && Locks(s)
  {
    hide DiskInv, Chain, Bound, Locks, WriterInv;
  }

  /** A call is alone with the store. */
  lemma AloneInv(s: System, p: Pid)
    requires Locks(s) && ProcessOf(s, p).Writer? && Chain(s.history, s.origin)
    requires CallInv(ConfigOf(s, p), ProcessOf(s, p).req, s.used, s.origin, s.history)
    ensures SystemInv(s)
  {
    hide DiskInv, Chain, WriterInv;
  }

  lemma EnteredInv(s: System, req: Request)
    ensures WriterInv(s.disk, s.used, s.origin, s.history, req, Entered, false)
  {
  }

  /** Starting, binding, ending and dying change processes and locks only. */
  lemma OtherStepFrame(s: System, e: Event, s': System)
    requires !e.WriterStep?
    requires Step(s, e) == Some(s')
    ensures s'.disk == s.disk && s'.used == s.used && s'.origin == s.origin && s'.history == s.history
    ensures forall q: Pid :: q != e.pid ==> ProcessOf(s', q) == ProcessOf(s, q)
    ensures var p := ProcessOf(s', e.pid);
      || p == ProcessOf(s, e.pid)
      || p == Idle
      || (e.BeginWrite? && p == Writer(e.req, Entered, false))
      || (p.Reader? && (p.bound.Some? ==>
            p.bound.value == s.disk.current && (s.disk.current.None? ==> s.disk.legacy == map[])))
  {
    hide Next, HistoryAfter;
  }

  lemma OtherStepKeepsInv(s: System, e: Event, s': System)
    requires SystemInv(s)
    requires !e.WriterStep?
    requires Step(s, e) == Some(s')
    ensures SystemInv(s')
  {
    StepKeepsLocks(s, e, s');
    OtherStepFrame(s, e, s');
    if e.BeginWrite? {
      EnteredInv(s, e.req);
    }
    hide DiskInv, WriterInv, Chain, Next, Locks, Step;
  }

  lemma StepKeepsInv(s: System, e: Event, s': System)
    requires SystemInv(s)
    requires Step(s, e) == Some(s')
    ensures SystemInv(s')
  {
    hide SystemInv, Step;
    if e.WriterStep? {
      WriterStepKeepsInv(s, e.pid, e.act, s');
    } else {
      OtherStepKeepsInv(s, e, s');
    }
  }

  lemma {:induction false} PlayKeepsInv(s: System, events: seq<Event>, s': System)
    requires SystemInv(s)
    requires Play(s, events) == Some(s')
    ensures SystemInv(s')
    decreases |events|
  {
    if events != [] {
      var next := Step(s, events[0]).value;
      hide SystemInv, Step;
      StepKeepsInv(s, events[0], next);
      PlayKeepsInv(next, events[1..], s');
    }
  }

  lemma InitialInv(s: System)
    requires Initial(s)
    ensures SystemInv(s)
  {
  }

  lemma ReachableInv(s: System, events: seq<Event>, s': System)
    requires Initial(s)
    requires Play(s, events) == Some(s')
    ensures SystemInv(s')
  {
    InitialInv(s);
    hide Initial, SystemInv;
    PlayKeepsInv(s, events, s');
  }

  /** Between publications, `origin` stays the legacy content of the start. */
  lemma {:induction false} OriginIsFixed(s: System, events: seq<Event>, s': System)
    requires Play(s, events) == Some(s')
    ensures s'.origin == s.origin
    decreases |events|
  {
    if events != [] {
      var next := Step(s, events[0]).value;
      assert next.origin == s.origin by { hide Next; }
      hide Step;
      OriginIsFixed(next, events[1..], s');
    }
  }

  // -------------------------------------------------------- atomic publication

  /** In every reachable state `current` names nothing, or a directory that is
    exactly the latest publication; and every publication is the whole, validated
    outcome of one call on the tree published before it (at first: on the legacy
    content). */
  lemma {:induction false} PublicationIsAtomic(s0: System, events: seq<Event>, s: System)
    requires Initial(s0)
    requires Play(s0, events) == Some(s)
    ensures s.history == [] ==> s.disk.current == None && View(s.disk) == None
    ensures s.history != [] ==>
      var last := s.history[|s.history| - 1];
      && s.disk.current == Some(last.id)
      && Intact(s.disk, last.id)
      && View(s.disk) == Some(last.tree)
    ensures forall i :: 0 <= i < |s.history| ==>
      Continues(s.history, s0.disk.legacy, i)
  {
    ReachableInv(s0, events, s);
    OriginIsFixed(s0, events, s);
    hide Play, Locks, Bound, WritersInv, Successful;
  }

  /** The tree a call starts from when readers see `view`. */
  function StartingTree(view: Option<Tree>, origin: Tree): Tree {
    match view
    case None => origin
    case Some(t) => Carried(t)
  }

  lemma OriginIsLegacy(s: System)
    requires Initial(s)
    ensures s.origin == s.disk.legacy
  {
  }

  lemma ViewIsLatest(s: System)
    requires SystemInv(s)
    ensures s.disk.current == Latest(s.history)
    ensures View(s.disk) == if s.history == [] then None else Some(s.history[|s.history| - 1].tree)
  {
    hide Chain, Locks, Bound, WritersInv;
  }

  lemma NoSwitchKeepsHistory(s: System, e: Event, s': System)
    requires Step(s, e) == Some(s')
    requires e.WriterStep? ==> !IsSwitch(ProcessOf(s, e.pid).phase, e.act)
    ensures s'.history == s.history
  {
    hide Next;
  }

  lemma SwitchShowsSuccessor(s: System, e: Event, s': System)
    requires SystemInv(s) && SystemInv(s')
    requires Step(s, e) == Some(s')
    requires e.WriterStep? && IsSwitch(ProcessOf(s, e.pid).phase, e.act)
    ensures var req := ProcessOf(s, e.pid).req;
      var base := StartingTree(View(s.disk), s.origin);
      && req.run(base).outcome.Some?
      && req.validate(Mutation(req, base))
      && View(s'.disk) == Some(Sealed(Mutation(req, base), ProcessOf(s, e.pid).phase.id))
  {
    hide Next, SystemInv, CallInv, WriterInv;
    var c := ConfigOf(s, e.pid);
    var req := ProcessOf(s, e.pid).req;
    ConfigInv(s, e.pid);
    SwitchPublishes(c, req, s.used, s.origin, s.history);
    ViewIsLatest(s);
    ViewIsLatest(s');
    assert s'.history == HistoryAfter(s.history, req, c, e.act);
    hide Step, Chain, Mutation, Sealed, View;
  }

  /** Readers see a change only when a call renames its link over the pointer, and
    then they see the complete successor of what they saw before. */
  lemma {:induction false} ViewChangesOnlyAtSwitch(s0: System, events: seq<Event>, s: System, e: Event, s': System)
    requires Initial(s0)
    requires Play(s0, events) == Some(s)
    requires Step(s, e) == Some(s')
    ensures
      || (View(s'.disk) == View(s.disk) && s'.disk.current == s.disk.current)
      || (e.WriterStep?
          && IsSwitch(ProcessOf(s, e.pid).phase, e.act)
          && var req := ProcessOf(s, e.pid).req;
             var base := StartingTree(View(s.disk), s0.disk.legacy);
          && req.run(base).outcome.Some?
          && req.validate(Mutation(req, base))
          && View(s'.disk) == Some(Sealed(Mutation(req, base), ProcessOf(s, e.pid).phase.id)))
  {
    assert e.WriterStep? ==> ProcessOf(s, e.pid).Writer? by { hide Next, Play, Initial; }
    hide *;
    ReachableInv(s0, events, s);
    OriginIsFixed(s0, events, s);
    OriginIsLegacy(s0);
    StepKeepsInv(s, e, s');
    if e.WriterStep? && IsSwitch(ProcessOf(s, e.pid).phase, e.act) {
      SwitchShowsSuccessor(s, e, s');
    } else {
      ViewIsLatest(s);
      ViewIsLatest(s');
      NoSwitchKeepsHistory(s, e, s');
    }
  }

  // ------------------------------------------------------- nothing else changes

  predicate SameEntry(t: Tree, t': Tree, e: Entry) {
    (e in t <==> e in t') && (e in t ==> t'[e] == t[e])
  }

  predicate WritesPath(writes: seq<Write>, path: string) {
    exists i :: 0 <= i < |writes| && writes[i].path == path
  }

  /** The entries that are a publication's own: the files its mutator writes, its receipt
    and its manifest. */
  predicate Affects(p: Publication, e: Entry) {
    match e
    case Manifest => true
    case Receipt(op) => p.req.operation.Some? && p.req.operation.value.id == op
    case Data(path) => WritesPath(p.req.run(p.base).writes, path)
  }

  lemma {:induction false} UnwrittenFilesStay(writes: seq<Write>, t: Tree, e: Entry)
    requires e.Data? ==> !WritesPath(writes, e.path)
    ensures SameEntry(t, ApplyAll(writes, t), e)
    decreases |writes|
  {
    if writes != [] {
      assert e.Data? ==> writes[0].path != e.path;
      assert SameEntry(t, Apply(writes[0], t), e);
      forall i | 0 <= i < |writes[1..]| ensures e.Data? ==> writes[1..][i].path != e.path {
        assert writes[1..][i] == writes[i + 1];
      }
      UnwrittenFilesStay(writes[1..], Apply(writes[0], t), e);
    }
  }

  lemma {:induction false} PublicationKeepsOthers(p: Publication, e: Entry)
    requires Successful(p) && !Affects(p, e)
    ensures SameEntry(p.base, p.tree, e)
  {
    UnwrittenFilesStay(p.req.run(p.base).writes, p.base, e);
    hide ApplyAll;
  }

  /** A call starts from everything its predecessor published but the manifest, and, when
    it is the first, from everything the legacy directories hold. */
  lemma {:induction false} CallsStartFromEverything(history: seq<Publication>, origin: Tree, i: nat, e: Entry)
    requires Chain(history, origin) && i < |history|
    requires forall x: Entry :: x in origin ==> x.Data?
    ensures Manifest !in history[i].base
    ensures !e.Manifest? ==> SameEntry(if i == 0 then origin else history[i - 1].tree, history[i].base, e)
  {
    assert Continues(history, origin, i);
    hide Successful;
  }

  /** What the calls between two publications do not write is the same in both, file by
    file and receipt by receipt. */
  lemma {:induction false} UnaffectedEntriesAreCarried(
    history: seq<Publication>, origin: Tree, i: nat, j: nat, e: Entry)
    requires Chain(history, origin) && i <= j < |history|
    requires forall x: Entry :: x in origin ==> x.Data?
    requires forall k :: i < k <= j ==> !Affects(history[k], e)
    requires !e.Manifest?
    ensures SameEntry(history[i].tree, history[j].tree, e)
    decreases j - i
  {
    hide Successful, Affects;
    if i < j {
      UnaffectedEntriesAreCarried(history, origin, i, j - 1, e);
      CallsStartFromEverything(history, origin, j, e);
      assert Continues(history, origin, j);
      PublicationKeepsOthers(history[j], e);
    }
  }

  /** In every run, readers find each entry of the legacy directories that no published
    call wrote, and no entry that none of them wrote either. */
  lemma {:induction false} NothingIsLost(s0: System, events: seq<Event>, s: System, e: Entry)
    requires Initial(s0) && Play(s0, events) == Some(s)
    requires View(s.disk).Some? && !e.Manifest?
    requires forall k :: 0 <= k < |s.history| ==> !Affects(s.history[k], e)
    ensures SameEntry(s0.disk.legacy, View(s.disk).value, e)
  {
    ReachableInv(s0, events, s);
    OriginIsFixed(s0, events, s);
    hide Play, Affects;
    ViewIsLatest(s);
    assert Chain(s.history, s.origin) && forall x: Entry :: x in s.origin ==> x.Data?;
    hide SystemInv;
    UnaffectedEntriesAreCarried(s.history, s.origin, 0, |s.history| - 1, e);
    CallsStartFromEverything(s.history, s.origin, 0, e);
    assert Continues(s.history, s.origin, 0);
    PublicationKeepsOthers(s.history[0], e);
  }

  // ------------------------------------------------------------ exactly once

  /** A publication carries every receipt of the tree it is built from. */
  lemma ReceiptIsCarried(p: Publication, before: Tree, op: OpId)
    requires Successful(p) && p.base == Carried(before)
    requires Receipt(op) in before
    ensures Receipt(op) in p.base
    ensures Receipt(op) in p.tree && p.tree[Receipt(op)] == before[Receipt(op)]
  {
    ApplyAllKeepsReceipts(p.req.run(p.base).writes, p.base);
    hide ApplyAll;
  }

  /** Receipts pass unchanged from one publication to all later ones. */
  lemma {:induction false} ReceiptsOnlyGrow(history: seq<Publication>, origin: Tree, i: nat, j: nat, op: OpId)
    requires Chain(history, origin)
    requires i <= j < |history|
    requires Receipt(op) in history[i].tree
    ensures Receipt(op) in history[j].tree && history[j].tree[Receipt(op)] == history[i].tree[Receipt(op)]
    ensures i < j ==> Receipt(op) in history[j].base
    decreases j - i
  {
    hide Successful;
    if i < j {
      ReceiptsOnlyGrow(history, origin, i, j - 1, op);
      assert Continues(history, origin, j);
      ReceiptIsCarried(history[j], history[j - 1].tree, op);
    }
  }

  /** One operation ID enters the published history at most once. */
  lemma {:induction false} OperationsHappenOnce(s0: System, events: seq<Event>, s: System, i: nat, j: nat)
    requires Initial(s0)
    requires Play(s0, events) == Some(s)
    requires i < j < |s.history|
    requires s.history[i].req.operation.Some? && s.history[j].req.operation.Some?
    ensures s.history[i].req.operation.value.id != s.history[j].req.operation.value.id
  {
    ReachableInv(s0, events, s);
    hide Play;
    ChainedOperationsDiffer(s.history, s.origin, i, j);
  }

  lemma ChainedOperationsDiffer(history: seq<Publication>, origin: Tree, i: nat, j: nat)
    requires Chain(history, origin) && i < j < |history|
    requires history[i].req.operation.Some? && history[j].req.operation.Some?
    ensures history[i].req.operation.value.id != history[j].req.operation.value.id
  {
    var op := history[i].req.operation.value.id;
    assert Continues(history, origin, i) && Continues(history, origin, j);
    assert Receipt(op) in history[i].tree;
    ReceiptsOnlyGrow(history, origin, i, j, op);
  }

  /** Phases in which a call has decided to run its mutator and not published yet. */
  predicate Running(phase: Phase) {
    || phase.Creating? || phase.Copying? || phase.Mutating?
    || (phase.Publishing? && !phase.stage.Switched? && !phase.stage.PointerSynced?)
  }

  lemma RunningOperationIsNew(c: Config, req: Request, used: set<Id>, origin: Tree, history: seq<Publication>)
    requires CallInv(c, req, used, origin, history)
    requires Running(c.phase)
    ensures NewOperation(c.disk, req, c.disk.current)
  {
  }

  /** The active generation holds the receipt of every published operation, with the
    value that its mutator computed. */
  lemma PublishedReceiptIsVisible(s: System, i: nat)
    requires SystemInv(s)
    requires i < |s.history| && s.history[i].req.operation.Some?
    ensures View(s.disk).Some?
    ensures s.history[i].req.run(s.history[i].base).outcome.Some?
    ensures var op := s.history[i].req.operation.value;
      && Receipt(op.id) in View(s.disk).value
      && View(s.disk).value[Receipt(op.id)]
         == ReceiptOf(op.kind, s.history[i].req.run(s.history[i].base).outcome.value)
  {
    hide Locks, Bound, WritersInv, ApplyAll;
    assert Continues(s.history, s.origin, i);
    ReceiptsOnlyGrow(s.history, s.origin, i, |s.history| - 1, s.history[i].req.operation.value.id);
  }

  /** Once an operation is published, no call for it runs its mutator again. */
  lemma {:induction false} PublishedOperationIsNotRerun(s0: System, events: seq<Event>, s: System, p: Pid, i: nat)
    requires Initial(s0)
    requires Play(s0, events) == Some(s)
    requires ProcessOf(s, p).Writer? && ProcessOf(s, p).req.operation.Some?
    requires i < |s.history| && s.history[i].req.operation.Some?
    requires s.history[i].req.operation.value.id == ProcessOf(s, p).req.operation.value.id
    ensures !Running(ProcessOf(s, p).phase)
  {
    ReachableInv(s0, events, s);
    PublishedReceiptIsVisible(s, i);
    if Running(ProcessOf(s, p).phase) {
      RunningOperationIsNew(ConfigOf(s, p), ProcessOf(s, p).req, s.used, s.origin, s.history);
      hide SystemInv, CallInv, Play, Initial;
    }
  }

  /** A call that is on its way to being refused: before its decision, or failing with
    the refusal, with an exception of its own, or at an object that is not the program's. */
  predicate Refusing(phase: Phase) {
    match phase
    case Entered => true
    case SweepingStaging(_) => true
    case SweepingLinks(_) => true
    case Locating => true
    case SweepingUnreferenced(_, _) => true
    case Deciding(_) => true
    case Failing(staging, error) => staging.None? && (error.Reused? || error.Fault? || error.Unexpected?)
    case Failed(error) => error.Reused? || error.Fault? || error.Unexpected?
    case _ => false
  }

  /** The `i`-th publication recorded the operation ID of this call under another kind. */
  predicate Clashes(s: System, req: Request, i: nat) {
    && i < |s.history| && s.history[i].req.operation.Some? && req.operation.Some?
    && s.history[i].req.operation.value.id == req.operation.value.id
    && s.history[i].req.operation.value.kind != req.operation.value.kind
  }

  lemma RefusingDecides(s: System, p: Pid, i: nat)
    requires SystemInv(s) && ProcessOf(s, p).Writer? && Clashes(s, ProcessOf(s, p).req, i)
    ensures var phase := ProcessOf(s, p).phase;
      && (phase.Deciding? ==> Decide(ProcessOf(s, p).req, s.disk, phase.active) == Failing(None, Reused))
      && (phase.Locating? && s.disk.current.Some? ==> Intact(s.disk, s.disk.current.value))
  {
    PublishedReceiptIsVisible(s, i);
    hide Chain, Locks, Bound;
  }

  lemma RefusingAct(req: Request, c: Config, a: Act, c': Config)
    requires Refusing(c.phase)
    requires c.phase.Deciding? ==> Decide(req, c.disk, c.phase.active) == Failing(None, Reused)
    requires c.phase.Locating? && c.disk.current.Some? ==> Intact(c.disk, c.disk.current.value)
    requires Next(req, c, a) == Some(c')
    ensures Refusing(c'.phase) && !IsSwitch(c.phase, a)
  {
    hide Decide, Changed, Dirty, AdvancePublishing;
  }

  lemma OnlyWriter(s: System, p: Pid)
    requires SystemInv(s) && ProcessOf(s, p).Writer?
    ensures forall q: Pid :: q != p ==> ProcessOf(s, q) == Idle
    ensures s.exclusive == Some(p) && s.shared == {}
  {
    hide Chain, Bound, DiskInv, WritersInv;
  }

  lemma RefusingOwnStep(s: System, a: Act, s': System, p: Pid, i: nat)
    requires SystemInv(s) && ProcessOf(s, p).Writer? && Clashes(s, ProcessOf(s, p).req, i)
    requires Refusing(ProcessOf(s, p).phase)
    requires Step(s, WriterStep(p, a)) == Some(s')
    ensures s'.history == s.history
    ensures ProcessOf(s', p).Writer? && ProcessOf(s', p).req == ProcessOf(s, p).req
    ensures Refusing(ProcessOf(s', p).phase)
  {
    var req, c := ProcessOf(s, p).req, ConfigOf(s, p);
    RefusingDecides(s, p, i);
    RefusingAct(req, c, a, Next(req, c, a).value);
    hide Next, SystemInv, Refusing, IsSwitch;
    NoSwitchKeepsHistory(s, WriterStep(p, a), s');
  }

  lemma RefusingStep(s: System, e: Event, s': System, p: Pid, i: nat)
    requires SystemInv(s) && ProcessOf(s, p).Writer? && Clashes(s, ProcessOf(s, p).req, i)
    requires Refusing(ProcessOf(s, p).phase)
    requires !(e.BeginWrite? && e.pid == p)
    requires Step(s, e) == Some(s')
    ensures s'.history == s.history && View(s'.disk) == View(s.disk)
    ensures ProcessOf(s', p).Writer? ==>
      ProcessOf(s', p).req == ProcessOf(s, p).req && Refusing(ProcessOf(s', p).phase)
  {
    hide SystemInv, Refusing, Next, Clashes;
    StepKeepsInv(s, e, s');
    ViewIsLatest(s);
    ViewIsLatest(s');
    OnlyWriter(s, p);
    if e.WriterStep? {
      assert e.pid == p;
      hide Step;
      RefusingOwnStep(s, e.act, s', p, i);
    } else {
      OtherStepFrame(s, e, s');
      hide Step;
    }
  }

  /** Without a new call of its own, a process that is not writing never writes again. */
  lemma {:induction false} NoNewCall(s: System, events: seq<Event>, s': System, p: Pid)
    requires !ProcessOf(s, p).Writer?
    requires forall k :: 0 <= k < |events| ==> !(events[k].BeginWrite? && events[k].pid == p)
    requires Play(s, events) == Some(s')
    ensures !ProcessOf(s', p).Writer?
    decreases |events|
  {
    if events != [] {
      var next := Step(s, events[0]).value;
      if events[0].pid == p || !events[0].WriterStep? {
        assert !ProcessOf(next, p).Writer? by { hide Next, HistoryAfter; }
      } else {
        assert ProcessOf(next, p) == ProcessOf(s, p) by { hide Next, HistoryAfter; }
      }
      hide Step;
      forall k | 0 <= k < |events[1..]| ensures !(events[1..][k].BeginWrite? && events[1..][k].pid == p) {
        assert events[1..][k] == events[k + 1];
      }
      NoNewCall(next, events[1..], s', p);
    }
  }

  lemma {:induction false} RefusingRun(s: System, events: seq<Event>, s': System, p: Pid, i: nat)
    requires SystemInv(s) && ProcessOf(s, p).Writer? && Clashes(s, ProcessOf(s, p).req, i)
    requires Refusing(ProcessOf(s, p).phase)
    requires forall k :: 0 <= k < |events| ==> !(events[k].BeginWrite? && events[k].pid == p)
    requires Play(s, events) == Some(s') && ProcessOf(s', p).Writer?
    ensures s'.history == s.history && View(s'.disk) == View(s.disk) && SystemInv(s')
    ensures ProcessOf(s', p).req == ProcessOf(s, p).req && Refusing(ProcessOf(s', p).phase)
    decreases |events|
  {
    hide SystemInv, Step, Refusing;
    if events != [] {
      var next := Step(s, events[0]).value;
      assert !(events[0].BeginWrite? && events[0].pid == p);
      StepKeepsInv(s, events[0], next);
      RefusingStep(s, events[0], next, p, i);
      forall k | 0 <= k < |events[1..]| ensures !(events[1..][k].BeginWrite? && events[1..][k].pid == p) {
        assert events[1..][k] == events[k + 1];
      }
      if ProcessOf(next, p).Writer? {
        RefusingRun(next, events[1..], s', p, i);
      } else {
        NoNewCall(next, events[1..], s', p);
      }
    }
  }

  /** A call that uses a published operation ID for another kind: from its start to its
    end, in every interleaving, nothing is published and readers see what they saw; it
    never returns, and fails for the reuse, unless an exception stops it earlier or, if
    something is there that is not the program's or could not be removed, the sweeps. */
  lemma {:induction false} ReusedOperationIsRejected(
    s0: System, before: seq<Event>, s: System, during: seq<Event>, s': System, p: Pid, i: nat)
    requires Initial(s0) && Play(s0, before) == Some(s)
    requires ProcessOf(s, p).Writer? && ProcessOf(s, p).phase.Entered?
    requires Clashes(s, ProcessOf(s, p).req, i)
    requires forall k :: 0 <= k < |during| ==> !(during[k].BeginWrite? && during[k].pid == p)
    requires Play(s, during) == Some(s') && ProcessOf(s', p).Writer?
    ensures s'.history == s.history && View(s'.disk) == View(s.disk)
    ensures var phase := ProcessOf(s', p).phase;
      && !phase.Returned? && !Running(phase)
      && (phase.Failed? ==>
            || phase.error.Reused?
            || phase.error.Fault?
            || (phase.error.Unexpected? && Blamed(s'.disk, ProcessOf(s', p).skipped)))
  {
    ReachableInv(s0, before, s);
    hide Play, Initial;
    RefusingRun(s, during, s', p, i);
    FailuresAreExplained(s', p);
    hide SystemInv;
  }

  lemma FailuresAreExplained(s: System, p: Pid)
    requires SystemInv(s) && ProcessOf(s, p).Writer?
    ensures var w := ProcessOf(s, p);
      w.phase.Failed? ==> Explained(s.disk, w.req, w.phase.error, w.skipped)
  {
    hide Chain, Locks, Bound, DiskInv;
  }

  /** What the end of a call means.  It returns what it published, after its validator
    accepted that once more; or what the active generation records for the very operation,
    readable and valid; or, for a new operation, an outcome its caller does not want
    published.  Unless it is that, no legacy data are left.  And every error it decides on
    is deserved. */
  lemma {:induction false} ResultsAreAccountedFor(s0: System, events: seq<Event>, s: System, p: Pid)
    requires Initial(s0)
    requires Play(s0, events) == Some(s)
    requires ProcessOf(s, p).Writer? && Finished(ProcessOf(s, p).phase)
    ensures var req := ProcessOf(s, p).req;
      match ProcessOf(s, p).phase
      case Returned(value) =>
        && (Confirmed(s.history, req, value) || Replayed(s.disk, req, value) || Unpublished(s.disk, req, value))
        && (s.disk.legacy == map[] || Unpublished(s.disk, req, value))
      case Failed(error) =>
        && Deserved(s.disk, s.history, req, error)
        && Explained(s.disk, req, error, ProcessOf(s, p).skipped)
      case _ => false
  {
    ReachableInv(s0, events, s);
    hide Play, Chain, Bound, Locks, DiskInv;
  }

  /** A call that returns normally for an operation that is published returns the value
    that the publishing call's mutator computed, whatever its own mutator would do. */
  lemma {:induction false} RetryReturnsPublishedValue(s0: System, events: seq<Event>, s: System, p: Pid, i: nat)
    requires Initial(s0)
    requires Play(s0, events) == Some(s)
    requires ProcessOf(s, p).Writer? && ProcessOf(s, p).phase.Returned? && ProcessOf(s, p).req.operation.Some?
    requires i < |s.history| && s.history[i].req.operation.Some?
    requires s.history[i].req.operation.value.id == ProcessOf(s, p).req.operation.value.id
    ensures s.history[i].req.run(s.history[i].base).outcome == Some(ProcessOf(s, p).phase.value)
  {
    hide Play, Initial, SystemInv;
    var req, value := ProcessOf(s, p).req, ProcessOf(s, p).phase.value;
    ReachableInv(s0, events, s);
    ResultsAreAccountedFor(s0, events, s, p);
    PublishedReceiptIsVisible(s, i);
    assert Receipt(req.operation.value.id) in Source(s.disk, s.disk.current);
    if Answers(s.history, req, value) {
      assert i == |s.history| - 1 by {
        if i < |s.history| - 1 {
          OperationsHappenOnce(s0, events, s, i, |s.history| - 1);
        }
      }
    }
  }

  /** An idle process gets the exclusive lock at once exactly when nobody holds any lock,
    and is refused as busy otherwise; it gets the shared lock exactly when nobody holds
    the exclusive one, and waits otherwise. */
  lemma {:induction false} LocksAreGranted(s: System, p: Pid, req: Request)
    requires ProcessOf(s, p) == Idle
    ensures var writing, reading := Step(s, BeginWrite(p, req)), Step(s, BeginRead(p, true));
      if s.exclusive.None? && s.shared == {} then
        && writing.Some? && reading.Some?
        && writing.value.exclusive == reading.value.exclusive == Some(p)
        && ProcessOf(writing.value, p) == Writer(req, Entered, false)
        && ProcessOf(reading.value, p) == Reader(true, None)
      else
        writing == reading == Some(s)
    ensures var sharing := Step(s, BeginRead(p, false));
      if s.exclusive.None? then
        && sharing.Some? && sharing.value.shared == s.shared + {p} && sharing.value.exclusive.None?
        && ProcessOf(sharing.value, p) == Reader(false, None)
      else
        sharing.None?
  {
  }

  /** A process that stops reading, or dies at any point, holds no lock any more, and
    leaves the disk and everybody else as they are. */
  lemma {:induction false} LocksAreReturned(s: System, p: Pid, q: Pid)
    requires ProcessOf(s, p) != Idle
    ensures Step(s, Kill(p)).Some? && (ProcessOf(s, p).Reader? <==> Step(s, EndRead(p)).Some?)
    ensures ProcessOf(s, p).Reader? ==> Step(s, EndRead(p)) == Step(s, Kill(p))
    ensures var s' := Step(s, Kill(p)).value;
      && ProcessOf(s', p) == Idle && s'.exclusive != Some(p) && p !in s'.shared
      && s'.disk == s.disk && s'.history == s.history
      && (q != p ==>
            && ProcessOf(s', q) == ProcessOf(s, q)
            && (s'.exclusive == Some(q) <==> s.exclusive == Some(q)) && (q in s'.shared <==> q in s.shared))
  {
  }

  /** Reading the pointer binds a process to what is active, unless only legacy data are
    there: then it is refused and gives its lock back. */
  lemma {:induction false} BindingMeans(s0: System, events: seq<Event>, s: System, p: Pid)
    requires Initial(s0) && Play(s0, events) == Some(s)
    requires ProcessOf(s, p).Reader? && ProcessOf(s, p).bound.None?
    ensures Step(s, Bind(p)).Some?
    ensures var s' := Step(s, Bind(p)).value;
      if s.disk.current.None? && s.disk.legacy != map[]
      then ProcessOf(s', p) == Idle && s'.exclusive != Some(p) && p !in s'.shared
      else ProcessOf(s', p) == ProcessOf(s, p).(bound := Some(s.disk.current))
  {
    ReachableInv(s0, events, s);
    ViewIsLatest(s);
    hide Play, Initial, Chain, WritersInv, Bound, Locks;
  }

  /** A call that has returned or failed does nothing more, and gives its lock back. */
  lemma {:induction false} FinishedCallsEnd(s: System, p: Pid, a: Act)
    requires ProcessOf(s, p).Writer?
    ensures ProcessOf(s, p).phase.Returned? || ProcessOf(s, p).phase.Failed? ==>
      && Step(s, WriterStep(p, a)).None?
      && Step(s, EndWrite(p)).Some?
      && Step(s, EndWrite(p)).value.exclusive != Some(p)
      && ProcessOf(Step(s, EndWrite(p)).value, p) == Idle
    ensures Step(s, EndWrite(p)).Some? ==> ProcessOf(s, p).phase.Returned? || ProcessOf(s, p).phase.Failed?
  {
  }

  // ------------------------------------------------------------ stable readers

  /** While a process reads, whatever the others do, nothing on disk changes. */
  lemma {:induction false} ReaderSeesOneDisk(s: System, events: seq<Event>, s': System, p: Pid)
    requires SystemInv(s)
    requires ProcessOf(s, p).Reader?
    requires forall i :: 0 <= i < |events| ==> events[i].pid != p
    requires Play(s, events) == Some(s')
    ensures s'.disk == s.disk && ProcessOf(s', p) == ProcessOf(s, p)
    decreases |events|
  {
    if events != [] {
      var next := Step(s, events[0]).value;
      assert events[0].pid != p;
      if events[0].WriterStep? {
        assert false;
      }
      OtherStepFrame(s, events[0], next);
      StepKeepsInv(s, events[0], next);
      forall i | 0 <= i < |events[1..]| ensures events[1..][i].pid != p {
        assert events[1..][i] == events[i + 1];
      }
      hide SystemInv, Step;
      ReaderSeesOneDisk(next, events[1..], s', p);
    }
  }

  /** The generation a reader is bound to stays present, unchanged and active for as
    long as the reader holds its view; and one that is bound to none overlooks no legacy
    data. */
  lemma {:induction false} ReaderViewIsStable(
    s0: System, before: seq<Event>, s: System, during: seq<Event>, s': System, p: Pid)
    requires Initial(s0)
    requires Play(s0, before) == Some(s)
    requires ProcessOf(s, p).Reader? && ProcessOf(s, p).bound.Some?
    requires forall i :: 0 <= i < |during| ==> during[i].pid != p
    requires Play(s, during) == Some(s')
    ensures ProcessOf(s', p) == ProcessOf(s, p)
    ensures ProcessOf(s', p).bound.value == s'.disk.current
    ensures s'.disk.current.None? ==> s'.disk.legacy == map[]
    ensures View(s'.disk) == View(s.disk)
    ensures s'.disk.current.Some? ==> Intact(s'.disk, s'.disk.current.value)
  {
    ReachableInv(s0, before, s);
    ReaderSeesOneDisk(s, during, s', p);
    hide Play, Chain, WritersInv;
  }

  /** Two processes never write at once, and nobody reads while one writes. */
  lemma {:induction false} WritersExclude(s0: System, events: seq<Event>, s: System, p: Pid, q: Pid)
    requires Initial(s0)
    requires Play(s0, events) == Some(s)
    requires p != q && ProcessOf(s, p).Writer?
    ensures ProcessOf(s, q) == Idle
  {
    ReachableInv(s0, events, s);
    hide Play, Chain, WritersInv, DiskInv, Bound;
  }

  // --------------------------------------------------------------- convergence

  /** An object the program does not own, and links it does not, are as before. */
  predicate ForeignKept(d: Disk, d': Disk, n: Name, l: Link) {
    && (n in d'.generations <==> n in d.generations)
    && (n in d.generations ==> d'.generations[n] == d.generations[n])
    && (l in d'.links <==> l in d.links)
  }

  lemma DiskChangesKeepForeign(d: Disk, m: Name, t: Tree, id: Id, n: Name, l: Link)
    requires n.Foreign? && l.Stray? && !m.Foreign?
    ensures ForeignKept(d, Rewrite(d, m, t), n, l)
    ensures ForeignKept(d, RenamedDirectory(d, id), n, l)
    ensures ForeignKept(d, WithLink(d, Temporary(id)), n, l)
    ensures ForeignKept(d, SwitchedTo(d, id), n, l)
  {
    hide Changed, Dirty;
  }

  lemma ForeignPublishingUntouched(req: Request, c: Config, n: Name, l: Link)
    requires n.Foreign? && l.Stray? && c.phase.Publishing?
    ensures ForeignKept(c.disk, AdvancePublishing(req, c).disk, n, l)
  {
    hide StagePhase;
    var staged := StagedTree(c.disk, c.phase.id);
    DiskChangesKeepForeign(c.disk, Staging(c.phase.id), Stamped(req, staged, c.phase.value), c.phase.id, n, l);
    DiskChangesKeepForeign(c.disk, Staging(c.phase.id), Sealed(staged, c.phase.id), c.phase.id, n, l);
    hide Rewrite, RenamedDirectory, WithLink, SwitchedTo, Stamped, Sealed, StagedTree, Intact;
  }

  lemma ForeignAdvanceUntouched(req: Request, c: Config, c': Config, n: Name, l: Link)
    requires n.Foreign? && l.Stray?
    requires AdvanceFrom(req, c) == Some(c')
    ensures ForeignKept(c.disk, c'.disk, n, l)
  {
    if c.phase.Publishing? {
      ForeignPublishingUntouched(req, c, n, l);
    }
    if c.phase.Mutating? && c.phase.rest != [] {
      DiskChangesKeepForeign(c.disk, Staging(c.phase.id), Apply(c.phase.rest[0], StagedTree(c.disk, c.phase.id)), 0, n, l);
    }
    hide Decide, ApplyAll, Apply, AdvancePublishing, Rewrite;
  }

  lemma ForeignStepUntouched(req: Request, c: Config, a: Act, c': Config, n: Name, l: Link)
    requires n.Foreign? && l.Stray?
    requires Next(req, c, a) == Some(c')
    ensures ForeignKept(c.disk, c'.disk, n, l)
  {
    if a.Advance? {
      ForeignAdvanceUntouched(req, c, c', n, l);
    }
    hide AdvanceFrom, Changed, Dirty;
  }

  /** Objects the program does not own are never touched. */
  lemma {:induction false} ForeignObjectsUntouched(s: System, events: seq<Event>, s': System, n: Name, l: Link)
    requires n.Foreign? && l.Stray?
    requires Play(s, events) == Some(s')
    ensures n in s'.disk.generations <==> n in s.disk.generations
    ensures n in s.disk.generations ==> s'.disk.generations[n] == s.disk.generations[n]
    ensures l in s'.disk.links <==> l in s.disk.links
    decreases |events|
  {
    if events != [] {
      var e := events[0];
      var next := Step(s, e).value;
      if e.WriterStep? {
        var w := ProcessOf(s, e.pid);
        ForeignStepUntouched(w.req, ConfigOf(s, e.pid), e.act, Next(w.req, ConfigOf(s, e.pid), e.act).value, n, l);
      } else {
        OtherStepFrame(s, e, next);
      }
      hide Next;
      ForeignObjectsUntouched(next, events[1..], s', n, l);
    }
  }

  /** A call that returns and whose removals all succeeded leaves only the active
    generation, and no temporary links, whatever earlier calls left behind. */
  lemma {:induction false} ReturnedCallLeavesNoGarbage(s0: System, events: seq<Event>, s: System, p: Pid)
    requires Initial(s0)
    requires Play(s0, events) == Some(s)
    requires ProcessOf(s, p).Writer? && ProcessOf(s, p).phase.Returned? && !ProcessOf(s, p).skipped
    ensures s.disk.generations.Keys == CurrentName(s.disk)
    ensures s.disk.links == {}
  {
    ReachableInv(s0, events, s);
    hide Play, Chain, Bound, Locks;
  }

  /** What killed calls leave behind never makes a later one refuse: if only owned
    objects were there at the start, "unexpected object" needs a failed removal. */
  lemma {:induction false} LeftoversAreOwned(s0: System, events: seq<Event>, s: System, p: Pid)
    requires Initial(s0)
    requires forall n: Name :: n in s0.disk.generations ==> !n.Foreign?
    requires forall l: Link :: l in s0.disk.links ==> !l.Stray?
    requires Play(s0, events) == Some(s)
    requires ProcessOf(s, p).Writer? && !ProcessOf(s, p).skipped
    ensures match ProcessOf(s, p).phase
      case Failing(_, error) => !error.Unexpected? && !error.Broken? && !error.Unverified?
      case Failed(error) => !error.Unexpected? && !error.Broken? && !error.Unverified?
      case _ => true
  {
    ReachableInv(s0, events, s);
    forall n: Name | n in s.disk.generations ensures !n.Foreign? {
      if n.Foreign? {
        ForeignObjectsUntouched(s0, events, s, n, Stray(""));
      }
    }
    forall l: Link | l in s.disk.links ensures !l.Stray? {
      if l.Stray? {
        ForeignObjectsUntouched(s0, events, s, Foreign(""), l);
      }
    }
    hide Play, Chain, Bound, Locks, DiskInv;
  }

  // ------------------------------------------------------------------- legacy

  /** Until a generation is published the legacy tree is intact, and the first
    generation is built from the whole of it. */
  lemma {:induction false} LegacyIsMigratedWhole(s0: System, events: seq<Event>, s: System)
    requires Initial(s0)
    requires Play(s0, events) == Some(s)
    ensures s.disk.current.None? ==> s.disk.legacy == s0.disk.legacy
    ensures s.disk.current.Some? ==> |s.history| > 0 && s.history[0].base == s0.disk.legacy
  {
    ReachableInv(s0, events, s);
    OriginIsFixed(s0, events, s);
    hide Play, Locks, Bound, WritersInv, Successful;
    if s.history != [] {
      assert Continues(s.history, s.origin, 0);
    }
  }

  // ------------------------------------------- the source's own run of a call

  function WriterSteps(p: Pid, acts: seq<Act>): seq<Event> {
    seq(|acts|, i requires 0 <= i < |acts| => WriterStep(p, acts[i]))
  }

  /** The operations that `MutateState` logs are events of the system: what holds in
    every run holds after each of them, and so wherever the call is killed. */
  lemma {:induction false} LoggedCallIsARun(s: System, p: Pid, log: seq<Act>, k: nat, c: Config)
    requires ProcessOf(s, p).Writer?
    requires CallRun(ProcessOf(s, p).req, ConfigOf(s, p), log) == Some(c)
    requires Drawn(s.used, log).Some?
    requires k <= |log|
    ensures var reached := Play(s, WriterSteps(p, log[..k]));
      && reached.Some?
      && ProcessOf(reached.value, p).Writer?
      && CallRun(ProcessOf(s, p).req, ConfigOf(s, p), log[..k]) == Some(ConfigOf(reached.value, p))
      && Step(reached.value, Kill(p)).Some?
    decreases |log|
  {
    hide Next, HistoryAfter;
    if k > 0 {
      var steps := WriterSteps(p, log[..k]);
      assert steps[0] == WriterStep(p, log[0]);
      var next := Step(s, steps[0]).value;
      assert log[..k][1..] == log[1..][..k - 1];
      assert steps[1..] == WriterSteps(p, log[1..][..k - 1]);
      LoggedCallIsARun(next, p, log[1..], k - 1, c);
    }
  }
}
