/** A call that stops between renaming over `current` and the fsync after it
  (state.py lines 400 and 401): exactly when that can cost a generation. */
module StateAbandoned {
  import opened Wrappers
  import opened StateDisk
  import opened StateProtocol
  import opened StateInvariant
  import opened StateTheorems
  import opened StatePowerLoss
  import opened StateRuns

  /** The condition, in the arguments of the stopped call and the state it found: it had
    a generation to replace, or legacy data to migrate and an operation ID to be retried
    with. */
  predicate Risky(s: System, p: Pid) {
    && AtSwitched(ProcessOf(s, p))
    && (ProcessOf(s, p).phase.active.Some?
        || (s.origin != map[] && ProcessOf(s, p).req.operation.Some?))
  }

  // ---------------------------------------------- the other stops are harmless

  /** A call that can neither be past its own rename nor touch the legacy tree. */
  predicate Calm(phase: Phase, origin: Tree) {
    && !(phase.Publishing? && (phase.stage.Switched? || phase.stage.PointerSynced?))
    && !phase.SweepingOld?
    && (origin != map[] ==> !phase.Replaying? && !phase.ClearingLegacy?)
  }

  predicate NoReceipt(t: Tree) {
    forall e: Entry :: e in t ==> !e.Receipt?
  }

  /** The first publication may be lost, and the legacy tree is there instead. */
  ghost predicate FirstPending(s: System) {
    && |s.history| == 1 && s.disk.current == Some(s.history[0].id)
    && s.disk.pointers == {None, s.disk.current}
    && s.disk.legacy == s.origin && s.disk.dirtyLegacy == {}
    && (s.origin == map[] || NoReceipt(s.history[0].tree))
    && forall p: Pid :: ProcessOf(s, p).Writer? ==> Calm(ProcessOf(s, p).phase, s.origin)
  }

  lemma PendingRests(s: System)
    requires SystemInv(s) && FirstPending(s)
    ensures Restful(s)
  {
    hide Chain, Bound, Locks, WritersInv;
    assert s.disk.(current := s.disk.current) == s.disk;
    assert s.history[..0] == [];
    forall target | target in s.disk.pointers ensures RestsOn(s, target) {
      if target.None? {
        assert Surviving(s.history, None) == Surviving(s.history[..0], None) == [];
      }
    }
  }

  /** A first publication without an operation carries no receipt. */
  lemma FirstHasNoReceipt(s: System)
    requires SystemInv(s) && |s.history| == 1 && s.history[0].req.operation.None?
    ensures NoReceipt(s.history[0].tree)
  {
    var first := s.history[0];
    assert Continues(s.history, s.origin, 0);
    ApplyAllKeepsReceipts(first.req.run(first.base).writes, first.base);
    hide Locks, Bound, WritersInv, ApplyAll, Anchored;
  }

  lemma StopLeavesPending(s: System, e: Event, s': System)
    requires SystemInv(s) && AbandonsPointer(s, e) && !Risky(s, e.pid)
    requires Step(s, e) == Some(s')
    ensures FirstPending(s')
  {
    var w := ProcessOf(s, e.pid);
    assert Latest(s.history[..|s.history| - 1]) == None;
    if w.req.operation.None? {
      FirstHasNoReceipt(s);
    }
    hide Chain, Bound, Anchored;
    assert s'.disk == s.disk && s'.history == s.history && s'.origin == s.origin;
    assert forall p: Pid :: p != e.pid ==> ProcessOf(s', p) == ProcessOf(s, p) && !ProcessOf(s, p).Writer?;
  }

  /** The parts of a pending first publication that a call can see. */
  ghost predicate PendingDisk(d: Disk, origin: Tree) {
    && d.current.Some? && Generation(d.current.value) in d.generations
    && d.pointers == {None, d.current}
    && d.legacy == origin && d.dirtyLegacy == {}
    && (origin == map[] || NoReceipt(d.generations[Generation(d.current.value)]))
  }

  /** `current` is durable now, or nothing about it changed. */
  ghost predicate PendingKept(c: Config, c': Config, origin: Tree) {
    && c'.disk.current == c.disk.current
    && (|| c'.disk.pointers == {c'.disk.current}
        || (&& c'.disk.pointers == c.disk.pointers && c'.disk.legacy == origin && c'.disk.dirtyLegacy == {}
            && Calm(c'.phase, origin)))
  }

  lemma CalmPublishing(req: Request, c: Config, origin: Tree)
    requires c.phase.Publishing? && Calm(c.phase, origin) && !c.phase.stage.LinkSynced?
    requires PendingDisk(c.disk, origin)
    ensures PendingKept(c, AdvancePublishing(req, c), origin)
  {
    hide Changed, Dirty, Stamped, Sealed;
  }

  lemma CalmAdvance(req: Request, c: Config, c': Config, origin: Tree)
    requires Calm(c.phase, origin) && !c.phase.Publishing?
    requires PendingDisk(c.disk, origin)
    requires c.phase.Deciding? ==> c.phase.active == c.disk.current
    requires AdvanceFrom(req, c) == Some(c')
    ensures PendingKept(c, c', origin)
  {
    hide Changed, Dirty, Apply, AdvancePublishing;
  }

  lemma CalmAct(req: Request, c: Config, a: Act, c': Config, origin: Tree)
    requires Calm(c.phase, origin) && PendingDisk(c.disk, origin) && !a.Advance?
    requires Next(req, c, a) == Some(c')
    ensures PendingKept(c, c', origin)
  {
    hide Changed, Dirty, AdvanceFrom;
  }

  /** A calm call on a pending first publication stays calm, or makes it durable. */
  lemma CalmNext(req: Request, c: Config, a: Act, c': Config, origin: Tree)
    requires Calm(c.phase, origin) && PendingDisk(c.disk, origin)
    requires c.phase.Deciding? ==> c.phase.active == c.disk.current
    requires !(c.phase.Publishing? && c.phase.stage.LinkSynced?)
    requires Next(req, c, a) == Some(c')
    ensures PendingKept(c, c', origin) && !IsSwitch(c.phase, a)
  {
    hide AdvanceFrom, AdvancePublishing, PendingKept, PendingDisk, Calm;
    if !a.Advance? {
      CalmAct(req, c, a, c', origin);
    } else if c.phase.Publishing? {
      CalmPublishing(req, c, origin);
      assert AdvanceFrom(req, c) == Some(AdvancePublishing(req, c)) by { PublishingAdvances(req, c); }
    } else {
      CalmAdvance(req, c, c', origin);
    }
  }

  /** What the invariant says of a call on a pending first publication. */
  lemma PendingCall(s: System, p: Pid)
    requires SystemInv(s) && FirstPending(s) && ProcessOf(s, p).Writer?
    ensures PendingDisk(s.disk, s.origin)
    ensures var phase := ProcessOf(s, p).phase;
      && (phase.Deciding? ==> phase.active == s.disk.current)
      && !(phase.Publishing? && phase.stage.LinkSynced?)
  {
    hide Chain, Bound, Locks;
    assert s.disk.generations[Generation(s.disk.current.value)] == s.history[0].tree;
  }

  lemma StepKeepsPending(s: System, e: Event, s': System)
    requires SystemInv(s) && FirstPending(s)
    requires Step(s, e) == Some(s')
    ensures FirstPending(s') || PointerAttended(s')
  {
    if e.WriterStep? {
      var req, c := ProcessOf(s, e.pid).req, ConfigOf(s, e.pid);
      var c' := Next(req, c, e.act).value;
      PendingCall(s, e.pid);
      CalmNext(req, c, e.act, c', s.origin);
      hide Next, SystemInv;
      assert s'.history == s.history;
      assert forall p: Pid :: p != e.pid ==> ProcessOf(s', p) == ProcessOf(s, p);
    } else {
      OtherStepFrame(s, e, s');
      hide Step, SystemInv;
      assert forall p: Pid :: p != e.pid ==> ProcessOf(s', p) == ProcessOf(s, p);
    }
  }

  lemma MoveKeepsPending(s: System, m: Move)
    requires SystemInv(s) && (FirstPending(s) || PointerAttended(s))
    requires Possible(s, m) && (m.Happens? ==> !AbandonsPointer(s, m.event))
    ensures SystemInv(After(s, m)) && (FirstPending(After(s, m)) || PointerAttended(After(s, m)))
  {
    hide SystemInv, FirstPending, PointerAttended, AfterPowerLoss, Step, Restful;
    if PointerAttended(s) {
      MoveKeepsInv(s, m);
    } else {
      match m
      case Happens(e) =>
        StepKeepsInv(s, e, After(s, m));
        StepKeepsPending(s, e, After(s, m));
      case Loss(d) =>
        PendingRests(s);
        RestartIsRecovered(s, d);
    }
  }

  /** From a harmless stop on, nothing is ever lost, until another call stops there. */
  lemma {:induction false} HarmlessStopStaysSafe(s: System, moves: seq<Move>, s': System)
    requires SystemInv(s) && (FirstPending(s) || PointerAttended(s))
    requires LeadsTo(s, moves, s')
    ensures PowerSafe(s')
    decreases |moves|
  {
    hide SystemInv, FirstPending, PointerAttended, Possible, After, PowerSafe, Restful;
    if moves == [] {
      if PointerAttended(s) {
        AttendedRests(s);
      } else {
        PendingRests(s);
      }
      RestfulIsPowerSafe(s);
    } else {
      MoveKeepsPending(s, moves[0]);
      HarmlessStopStaysSafe(After(s, moves[0]), moves[1..], s');
    }
  }

  // ------------------------------------------------------ the risky stops do harm

  /** A stop changes no file; a kill gives the lock back. */
  lemma StopFrame(s: System, e: Event, s': System)
    requires AbandonsPointer(s, e) && Step(s, e) == Some(s')
    ensures s'.disk == s.disk && s'.history == s.history && s'.origin == s.origin
    ensures e.Kill? ==> s' == Released(s, e.pid)
    ensures e.WriterStep? ==>
      && ProcessOf(s', e.pid).Writer? && ProcessOf(s', e.pid).phase.Failing?
      && s'.exclusive == s.exclusive && s'.shared == s.shared
  {
  }

  lemma SwitchedIsCleared(s: System, p: Pid)
    requires AllCleared(s) && ProcessOf(s, p).Writer? && ProcessOf(s, p).phase.Publishing?
    requires !BeforeRename(ProcessOf(s, p).phase.stage)
    ensures NoStrays(s.disk) && OnlyGenerations(s.disk, {})
  {
    assert Cleared(s.disk, ProcessOf(s, p).phase);
    hide NoStrays, OnlyGenerations;
  }

  /** After the stop the lock is free again, and the disk is as it was. */
  lemma StopReachesReady(s: System, e: Event, s': System) returns (f: System)
    requires SystemInv(s) && AllCleared(s) && AbandonsPointer(s, e)
    requires Step(s, e) == Some(s')
    ensures Reaches(s', f) && Ready(f, e.pid) && SystemInv(f)
    ensures f.disk == s.disk && f.history == s.history && f.origin == s.origin
  {
    hide SystemInv, Step, Reaches, AllCleared, NoStrays, OnlyGenerations;
    var p := e.pid;
    SwitchedIsCleared(s, p);
    OnlyWriter(s, p);
    StopFrame(s, e, s');
    StepKeepsInv(s, e, s');
    if e.Kill? {
      f := s';
      KillFrees(s, p);
      ReachesItself(s');
    } else {
      f := Released(s', p);
      KillFrees(s', p);
      ReachesByStep(s', Kill(p), f);
      StepKeepsInv(s', Kill(p), f);
    }
    CurrentIsWhole(f);
  }

  /** Everything persisted, except that `current` comes back as `target`. */
  lemma AllButTheRenamePersists(d: Disk, target: Option<Id>)
    requires target in d.pointers
    ensures AfterPowerLoss(d, Settled(d.(current := target)))
  {
  }

  /** Where the replaced generation lacks its manifest and `current` may come back on
    it, power must not be lost. */
  lemma BrokenBaseIsUnsafe(s: System, g: Id)
    requires Chain(s.history, s.origin) && Some(g) in s.disk.pointers
    requires Generation(g) in s.disk.generations && Manifest !in s.disk.generations[Generation(g)]
    ensures !PowerSafe(s)
  {
    var d := Settled(s.disk.(current := Some(g)));
    AllButTheRenamePersists(s.disk, Some(g));
    forall i | 0 <= i < |s.history| ensures Manifest in s.history[i].tree {
      assert Continues(s.history, s.origin, i);
    }
    hide AfterPowerLoss, Chain;
    assert !Recovered(d, s.origin, s.history);
  }

  lemma BrokenLegacyIsUnsafe(s: System)
    requires None in s.disk.pointers && s.disk.legacy != s.origin
    ensures !PowerSafe(s)
  {
    var d := Settled(s.disk.(current := None));
    AllButTheRenamePersists(s.disk, None);
    hide AfterPowerLoss;
    assert !Recovered(d, s.origin, s.history);
  }

  /** The next call sweeps the replaced generation, beginning with its manifest. */
  lemma SweepReachesUnsafe(f: System, p: Pid, req: Request, g: Id) returns (u: System)
    requires SystemInv(f) && Ready(f, p)
    requires Some(g) in f.disk.pointers && f.disk.current != Some(g)
    requires Generation(g) in f.disk.generations && Manifest in f.disk.generations[Generation(g)]
    ensures Reaches(f, u) && !PowerSafe(u)
  {
    var d, n := f.disk, Generation(g);
    var skipped := ReachesSweep(f, p, req);
    var c := Config(d, SweepingUnreferenced(d.current, Others(d)), skipped);
    var c' := c.(disk := Rewrite(d, n, d.generations[n] - {Manifest}));
    assert n in Others(d);
    assert Next(req, c, DropEntry(n, Manifest)) == Some(c');
    assert Chain(f.history, f.origin);
    u := InCall(f, p, req, c');
    hide Next, Ready, Reaches, SystemInv, Chain, PowerSafe;
    ReachesByAct(f, p, req, c, DropEntry(n, Manifest), c');
    ReachesFurther(f, InCall(f, p, req, c), u);
    BrokenBaseIsUnsafe(u, g);
  }

  /** A retry of the published first operation clears the legacy tree. */
  lemma ReplayReachesUnsafe(f: System, p: Pid, req: Request, e: Entry, op: Operation, kind: Kind, value: Value)
    returns (u: System)
    requires Ready(f, p)
    requires None in f.disk.pointers && f.disk.current.Some?
    requires e in f.disk.legacy && f.disk.legacy == f.origin
    requires Receipt(op.id) in View(f.disk).value && View(f.disk).value[Receipt(op.id)] == ReceiptOf(kind, value)
    requires req.operation == Some(Operation(op.id, kind, _ => true))
    requires forall t :: req.validate(t)
    ensures Reaches(f, u) && !PowerSafe(u)
  {
    var d := f.disk;
    var skipped := ReachesDeciding(f, p, req);
    var c0 := Config(d, Deciding(d.current), skipped);
    var c1 := Config(d, Replaying(d.current.value, value), skipped);
    var c2 := Config(d, ClearingLegacy(value), skipped);
    var c3 := c2.(disk := WithoutLegacy(d, e));
    assert Next(req, c0, Advance) == Some(c1) && Next(req, c1, Advance) == Some(c2);
    assert Next(req, c2, DropLegacy(e)) == Some(c3);
    u := InCall(f, p, req, c3);
    hide Next, Ready, Reaches, PowerSafe;
    ReachesByAct(f, p, req, c0, Advance, c1);
    ReachesByAct(f, p, req, c1, Advance, c2);
    ReachesByAct(f, p, req, c2, DropLegacy(e), c3);
    BrokenLegacyIsUnsafe(u);
    hide InCall;
    ReachesFurther(f, InCall(f, p, req, c0), InCall(f, p, req, c1));
    ReachesFurther(f, InCall(f, p, req, c1), InCall(f, p, req, c2));
    ReachesFurther(f, InCall(f, p, req, c2), u);
  }

  /** What a call between rename and fsync replaced is still there, whole. */
  lemma ReplacedIsThere(s: System, p: Pid)
    requires SystemInv(s) && AtSwitched(ProcessOf(s, p))
    ensures var active := ProcessOf(s, p).phase.active;
      && s.disk.current.Some? && active in s.disk.pointers && active != s.disk.current
      && (active.Some? ==> Intact(s.disk, active.value))
      && (active.None? ==> |s.history| == 1 && s.disk.legacy == s.origin && s.history[0].req == ProcessOf(s, p).req)
  {
    hide Chain, Bound, Locks;
    var before := s.history[..|s.history| - 1];
    assert Latest(before) == ProcessOf(s, p).phase.active;
  }

  lemma RiskyStopReachesUnsafe(s: System, e: Event, s': System) returns (u: System)
    requires SystemInv(s) && AllCleared(s) && AbandonsPointer(s, e) && Risky(s, e.pid)
    requires Step(s, e) == Some(s')
    ensures Reaches(s', u) && !PowerSafe(u)
  {
    var p := e.pid;
    var req := ProcessOf(s, p).req;
    hide SystemInv, Step, AllCleared, Reaches, PowerSafe, Ready;
    var f := StopReachesReady(s, e, s');
    ReplacedIsThere(s, p);
    if ProcessOf(s, p).phase.active.Some? {
      u := SweepReachesUnsafe(f, p, req, ProcessOf(s, p).phase.active.value);
    } else {
      var op := req.operation.value;
      var entry :| entry in s.origin;
      PublishedReceiptIsVisible(s, 0);
      var value := s.history[0].req.run(s.history[0].base).outcome.value;
      var retry := Request(req.run, _ => true, _ => true, Some(Operation(op.id, op.kind, _ => true)));
      u := ReplayReachesUnsafe(f, p, retry, entry, op, op.kind, value);
    }
    ReachesFurther(s', f, u);
  }

  /** Some moves, none of them such a stop, lead to where a power loss can destroy the
    generation, or the legacy tree, that the durable `current` leads to. */
  ghost predicate MayLose(s: System) {
    exists later, u :: LeadsTo(s, later, u) && !PowerSafe(u)
  }

  lemma StopIsSafeOrRisky(s: System, e: Event, s': System)
    requires SystemInv(s) && PointerAttended(s) && AllCleared(s)
    requires AbandonsPointer(s, e) && Step(s, e) == Some(s')
    ensures PowerSafe(s')
    ensures Risky(s, e.pid) ==> exists u :: Reaches(s', u) && !PowerSafe(u)
    ensures !Risky(s, e.pid) ==> SystemInv(s') && FirstPending(s')
  {
    hide SystemInv, PointerAttended, AllCleared, Step, PowerSafe, Risky, FirstPending, Restful, AbandonsPointer, Reaches;
    StepKeepsInv(s, e, s');
    AttendedRests(s);
    StopStaysRestful(s, e, s');
    RestfulIsPowerSafe(s');
    if Risky(s, e.pid) {
      var u := RiskyStopReachesUnsafe(s, e, s');
    } else {
      StopLeavesPending(s, e, s');
    }
  }

  /** A stop between the rename and its fsync is itself still safe.  What follows can
    destroy what the durable `current` leads to if and only if the stopped call replaced
    a generation, or migrated legacy data under an operation ID. */
  lemma {:induction false} AbandonedPointerExactly(s0: System, moves: seq<Move>, s: System, e: Event, s': System)
    requires Initial(s0) && LeadsTo(s0, moves, s)
    requires AbandonsPointer(s, e) && Step(s, e) == Some(s')
    ensures PowerSafe(s')
    ensures MayLose(s') <==> Risky(s, e.pid)
  {
    hide Initial, LeadsTo, SystemInv, PointerAttended, AllCleared, Step, PowerSafe, Risky, FirstPending, AbandonsPointer,
      Reaches, MayLose;
    StartIsCleared(s0);
    MovesKeepInv(s0, moves, s);
    MovesKeepCleared(s0, moves, s);
    StopIsSafeOrRisky(s, e, s');
    if Risky(s, e.pid) {
      var u :| Reaches(s', u) && !PowerSafe(u);
      ReachingUnsafeMayLose(s', u);
    } else {
      HarmlessStopNeverLoses(s');
    }
  }

  lemma ReachingUnsafeMayLose(s: System, u: System)
    requires Reaches(s, u) && !PowerSafe(u)
    ensures MayLose(s)
  {
    hide LeadsTo, PowerSafe;
    var later :| OnlyHappens(later) && LeadsTo(s, later, u);
    assert LeadsTo(s, later, u) && !PowerSafe(u);
  }

  lemma HarmlessStopNeverLoses(s: System)
    requires SystemInv(s) && FirstPending(s)
    ensures !MayLose(s)
  {
    hide LeadsTo, PowerSafe, SystemInv, FirstPending;
    forall later, u | LeadsTo(s, later, u) ensures PowerSafe(u) {
      HarmlessStopStaysSafe(s, later, u);
    }
  }

  lemma StopStaysRestful(s: System, e: Event, s': System)
    requires AbandonsPointer(s, e) && Step(s, e) == Some(s') && Restful(s)
    ensures Restful(s')
  {
    StopFrame(s, e, s');
    hide Step;
    forall target | target in s'.disk.pointers ensures RestsOn(s', target) {
      assert RestsOn(s, target);
    }
  }
}
