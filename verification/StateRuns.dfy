/** Building runs of the store step by step, to show what can be reached. */
module StateRuns {
  import opened Wrappers
  import opened StateDisk
  import opened StateProtocol
  import opened StateInvariant
  import opened StateTheorems
  import opened StatePowerLoss

  // ------------------------------------------- what a call leaves, skips included

  /** The objects a call can still have around it: whatever it could not remove, what
    it could not pass is not there. */
  predicate Cleared(d: Disk, phase: Phase) {
    match phase
    case SweepingUnreferenced(_, todo) =>
      NoStrays(d) && forall n: Name :: n in d.generations ==> n.Generation? || n in todo
    case Deciding(_) => NoStrays(d) && OnlyGenerations(d, {})
    case Replaying(_, _) => NoStrays(d) && OnlyGenerations(d, {})
    case Creating(_) => NoStrays(d) && OnlyGenerations(d, {})
    case Copying(_, id) => NoStrays(d) && OnlyGenerations(d, {Staging(id)})
    case Mutating(_, id, _, _) => NoStrays(d) && OnlyGenerations(d, {Staging(id)})
    case Publishing(_, id, _, stage) =>
      NoStrays(d) && OnlyGenerations(d, if BeforeRename(stage) then {Staging(id)} else {})
    case Locating => NoStrays(d)
    case _ => true
  }

  predicate NoStrays(d: Disk) {
    forall l: Link :: l in d.links ==> !l.Stray?
  }

  predicate OnlyGenerations(d: Disk, extra: set<Name>) {
    forall n: Name :: n in d.generations ==> n.Generation? || n in extra
  }

  ghost predicate AllCleared(s: System) {
    forall p: Pid :: ProcessOf(s, p).Writer? ==> Cleared(s.disk, ProcessOf(s, p).phase)
  }

  lemma ClearedPublishing(req: Request, c: Config)
    requires c.phase.Publishing? && Cleared(c.disk, c.phase)
    ensures Cleared(AdvancePublishing(req, c).disk, AdvancePublishing(req, c).phase)
  {
    var Publishing(_, id, value, stage) := c.phase;
    var d' := StageDisk(req, c.disk, id, value, stage);
    assert NoStrays(d') by { hide Changed, Dirty, Stamped, Sealed; }
    assert OnlyGenerations(d', if BeforeRename(stage) && !stage.TreeSynced? then {Staging(id)} else {}) by {
      hide Changed, Dirty, Stamped, Sealed;
    }
    hide StageDisk, NoStrays, OnlyGenerations;
  }

  lemma ClearedAdvance(req: Request, c: Config, c': Config)
    requires !c.phase.Publishing? && Cleared(c.disk, c.phase)
    requires c.phase.SweepingLinks? ==> forall l: Link :: l.Stray? && l in c.disk.links ==> l in c.phase.links
    requires AdvanceFrom(req, c) == Some(c')
    ensures Cleared(c'.disk, c'.phase)
  {
    hide Changed, Dirty, Apply, AdvancePublishing;
  }

  lemma ClearedAct(req: Request, c: Config, a: Act, c': Config)
    requires !a.Advance? && Cleared(c.disk, c.phase)
    requires Next(req, c, a) == Some(c')
    ensures Cleared(c'.disk, c'.phase)
  {
    hide Changed, Dirty, AdvanceFrom;
  }

  lemma StepKeepsCleared(s: System, e: Event, s': System)
    requires SystemInv(s) && AllCleared(s)
    requires Step(s, e) == Some(s')
    ensures AllCleared(s')
  {
    if e.WriterStep? {
      var req, c := ProcessOf(s, e.pid).req, ConfigOf(s, e.pid);
      var c' := Next(req, c, e.act).value;
      LinksAreListed(s, e.pid);
      hide SystemInv, AdvanceFrom, AdvancePublishing, Cleared;
      assert Cleared(c'.disk, c'.phase) by {
        if !e.act.Advance? {
          ClearedAct(req, c, e.act, c');
        } else if c.phase.Publishing? {
          PublishingAdvances(req, c);
          ClearedPublishing(req, c);
        } else {
          ClearedAdvance(req, c, c');
        }
      }
      hide Next;
      OnlyWriter(s, e.pid);
      assert forall p: Pid :: p != e.pid ==> ProcessOf(s', p) == ProcessOf(s, p);
    } else {
      OtherStepFrame(s, e, s');
      hide Step, SystemInv;
      assert forall p: Pid :: p != e.pid ==> ProcessOf(s', p) == ProcessOf(s, p);
    }
  }

  lemma LinksAreListed(s: System, p: Pid)
    requires SystemInv(s) && ProcessOf(s, p).Writer?
    ensures var phase := ProcessOf(s, p).phase;
      phase.SweepingLinks? ==> forall l: Link :: l.Stray? && l in s.disk.links ==> l in phase.links
  {
    hide Chain, Bound, Locks, DiskInv;
  }

  lemma {:induction false} MovesKeepCleared(s: System, moves: seq<Move>, s': System)
    requires SystemInv(s) && PointerAttended(s) && AllCleared(s)
    requires LeadsTo(s, moves, s')
    ensures AllCleared(s')
    decreases |moves|
  {
    hide SystemInv, PointerAttended, AllCleared, Step, AfterPowerLoss;
    if moves != [] {
      MoveKeepsInv(s, moves[0]);
      match moves[0]
      case Happens(e) =>
        StepKeepsCleared(s, e, After(s, moves[0]));
        MovesKeepCleared(After(s, moves[0]), moves[1..], s');
      case Loss(d) =>
        NobodyIsCleared(After(s, moves[0]));
        MovesKeepCleared(After(s, moves[0]), moves[1..], s');
    }
  }

  lemma NobodyIsCleared(s: System)
    requires s.processes == map[]
    ensures AllCleared(s)
  {
  }

  lemma PublishingAdvances(req: Request, c: Config)
    requires c.phase.Publishing?
    ensures AdvanceFrom(req, c) == Some(AdvancePublishing(req, c))
  {
    hide AdvancePublishing;
  }

  lemma StartIsCleared(s: System)
    requires Initial(s)
    ensures SystemInv(s) && PointerAttended(s) && AllCleared(s)
  {
    InitialInv(s);
    hide SystemInv;
  }

  // --------------------------------------------------- building runs step by step

  ghost predicate OnlyHappens(moves: seq<Move>) {
    forall i :: 0 <= i < |moves| ==> moves[i].Happens?
  }

  /** Some events of processes, no power loss among them, lead there. */
  ghost predicate Reaches(s: System, s': System) {
    exists moves :: OnlyHappens(moves) && LeadsTo(s, moves, s')
  }

  lemma ReachesItself(s: System)
    ensures Reaches(s, s)
  {
    assert OnlyHappens([]) && LeadsTo(s, [], s);
  }

  lemma {:induction false} LeadsToAppend(s: System, first: seq<Move>, between: System, second: seq<Move>, s': System)
    requires LeadsTo(s, first, between) && LeadsTo(between, second, s')
    ensures LeadsTo(s, first + second, s')
    decreases |first|
  {
    hide Possible, After;
    if first == [] {
      assert first + second == second;
    } else {
      assert (first + second)[1..] == first[1..] + second;
      LeadsToAppend(After(s, first[0]), first[1..], between, second, s');
    }
  }

  lemma ReachesFurther(s: System, between: System, s': System)
    requires Reaches(s, between) && Reaches(between, s')
    ensures Reaches(s, s')
  {
    hide LeadsTo;
    var first :| OnlyHappens(first) && LeadsTo(s, first, between);
    var second :| OnlyHappens(second) && LeadsTo(between, second, s');
    LeadsToAppend(s, first, between, second, s');
    assert OnlyHappens(first + second);
  }

  lemma ReachesByStep(s: System, e: Event, s': System)
    requires Step(s, e) == Some(s') && !AbandonsPointer(s, e)
    ensures Reaches(s, s')
  {
    hide Step;
    var moves := [Happens(e)];
    assert OnlyHappens(moves);
    assert LeadsTo(After(s, moves[0]), moves[1..], s');
    assert LeadsTo(s, moves, s');
  }

  /** The system with process `p` inside a call. */
  function InCall(f: System, p: Pid, req: Request, c: Config): System {
    f.(disk := c.disk, processes := f.processes[p := Writer(req, c.phase, c.skipped)], exclusive := Some(p))
  }

  lemma ReachesByAct(f: System, p: Pid, req: Request, c: Config, a: Act, c': Config)
    requires Next(req, c, a) == Some(c') && !a.Create? && !a.Fail? && !IsSwitch(c.phase, a)
    ensures Reaches(InCall(f, p, req, c), InCall(f, p, req, c'))
  {
    hide Next;
    var s := InCall(f, p, req, c);
    assert ConfigOf(s, p) == c;
    assert f.processes[p := Writer(req, c.phase, c.skipped)][p := Writer(req, c'.phase, c'.skipped)]
        == f.processes[p := Writer(req, c'.phase, c'.skipped)];
    assert Step(s, WriterStep(p, a)) == Some(InCall(f, p, req, c'));
    ReachesByStep(s, WriterStep(p, a), InCall(f, p, req, c'));
  }

  lemma ReachesEntered(f: System, p: Pid, req: Request)
    requires Free(f) && ProcessOf(f, p) == Idle
    ensures Reaches(f, InCall(f, p, req, Config(f.disk, Entered, false)))
  {
    hide Next;
    ReachesByStep(f, BeginWrite(p, req), InCall(f, p, req, Config(f.disk, Entered, false)));
  }

  /** Suppressed removal errors: the links stay. */
  lemma {:induction false} ReachesPastLinks(f: System, p: Pid, req: Request, d: Disk, links: set<Link>, skipped: bool)
    returns (now: bool)
    requires forall l :: l in links ==> !l.Stray?
    ensures Reaches(InCall(f, p, req, Config(d, SweepingLinks(links), skipped)),
                    InCall(f, p, req, Config(d, SweepingLinks({}), now)))
    decreases links
  {
    if links == {} {
      now := skipped;
      ReachesItself(InCall(f, p, req, Config(d, SweepingLinks(links), skipped)));
    } else {
      var l :| l in links;
      var c, c' := Config(d, SweepingLinks(links), skipped), Config(d, SweepingLinks(links - {l}), true);
      assert Next(req, c, SkipLink(l)) == Some(c');
      hide Next, Reaches;
      ReachesByAct(f, p, req, c, SkipLink(l), c');
      now := ReachesPastLinks(f, p, req, d, links - {l}, true);
      ReachesFurther(InCall(f, p, req, c), InCall(f, p, req, c'), InCall(f, p, req, Config(d, SweepingLinks({}), now)));
    }
  }

  /** The same for unreferenced generations. */
  lemma {:induction false} ReachesPastGenerations(
    f: System, p: Pid, req: Request, d: Disk, active: Option<Id>, todo: set<Name>, skipped: bool) returns (now: bool)
    requires forall n: Name :: n in todo ==> n.Generation?
    ensures Reaches(InCall(f, p, req, Config(d, SweepingUnreferenced(active, todo), skipped)),
                    InCall(f, p, req, Config(d, SweepingUnreferenced(active, {}), now)))
    decreases todo
  {
    if todo == {} {
      now := skipped;
      ReachesItself(InCall(f, p, req, Config(d, SweepingUnreferenced(active, todo), skipped)));
    } else {
      var n :| n in todo;
      var c := Config(d, SweepingUnreferenced(active, todo), skipped);
      var c' := Config(d, SweepingUnreferenced(active, todo - {n}), true);
      assert Next(req, c, SkipChild(n)) == Some(c');
      hide Next, Reaches;
      ReachesByAct(f, p, req, c, SkipChild(n), c');
      now := ReachesPastGenerations(f, p, req, d, active, todo - {n}, true);
      ReachesFurther(InCall(f, p, req, c), InCall(f, p, req, c'),
                     InCall(f, p, req, Config(d, SweepingUnreferenced(active, {}), now)));
    }
  }

  /** A state in which a new call meets no obstacle. */
  ghost predicate Ready(f: System, p: Pid) {
    && Free(f) && ProcessOf(f, p) == Idle
    && NoStrays(f.disk) && OnlyGenerations(f.disk, {})
    && (f.disk.current.Some? ==> Intact(f.disk, f.disk.current.value))
  }

  function Others(d: Disk): set<Name> {
    d.generations.Keys - CurrentName(d)
  }

  lemma ReachesSweep(f: System, p: Pid, req: Request) returns (skipped: bool)
    requires Ready(f, p)
    ensures Reaches(f, InCall(f, p, req, Config(f.disk, SweepingUnreferenced(f.disk.current, Others(f.disk)), skipped)))
  {
    var d := f.disk;
    var c0 := Config(d, Entered, false);
    var c1 := Config(d, SweepingStaging({}), false);
    var c2 := Config(d, SweepingLinks(d.links), false);
    assert (set n | n in d.generations && IsStaging(n)) == {};
    assert Next(req, c0, Advance) == Some(c1) && Next(req, c1, Advance) == Some(c2);
    ReachesEntered(f, p, req);
    ReachesByAct(f, p, req, c0, Advance, c1);
    ReachesByAct(f, p, req, c1, Advance, c2);
    skipped := ReachesPastLinks(f, p, req, d, d.links, false);
    var c3 := Config(d, SweepingLinks({}), skipped);
    var c4 := Config(d, Locating, skipped);
    var c5 := Config(d, SweepingUnreferenced(d.current, Others(d)), skipped);
    assert Next(req, c3, Advance) == Some(c4) && Next(req, c4, Advance) == Some(c5);
    ReachesByAct(f, p, req, c3, Advance, c4);
    ReachesByAct(f, p, req, c4, Advance, c5);
    hide Next, Reaches, Ready, InCall;
    ReachesFurther(f, InCall(f, p, req, c0), InCall(f, p, req, c1));
    ReachesFurther(f, InCall(f, p, req, c1), InCall(f, p, req, c2));
    ReachesFurther(f, InCall(f, p, req, c2), InCall(f, p, req, c3));
    ReachesFurther(f, InCall(f, p, req, c3), InCall(f, p, req, c4));
    ReachesFurther(f, InCall(f, p, req, c4), InCall(f, p, req, c5));
  }

  lemma ReachesDeciding(f: System, p: Pid, req: Request) returns (skipped: bool)
    requires Ready(f, p)
    ensures Reaches(f, InCall(f, p, req, Config(f.disk, Deciding(f.disk.current), skipped)))
  {
    var d := f.disk;
    var before := ReachesSweep(f, p, req);
    skipped := ReachesPastGenerations(f, p, req, d, d.current, Others(d), before);
    var c0 := Config(d, SweepingUnreferenced(d.current, Others(d)), before);
    var c1 := Config(d, SweepingUnreferenced(d.current, {}), skipped);
    var c2 := Config(d, Deciding(d.current), skipped);
    assert Next(req, c1, Advance) == Some(c2);
    ReachesByAct(f, p, req, c1, Advance, c2);
    hide Next, Reaches, Ready, InCall;
    ReachesFurther(f, InCall(f, p, req, c0), InCall(f, p, req, c1));
    ReachesFurther(f, InCall(f, p, req, c1), InCall(f, p, req, c2));
  }

  lemma KillFrees(s: System, p: Pid)
    requires ProcessOf(s, p).Writer? && s.exclusive == Some(p) && s.shared == {}
    ensures Step(s, Kill(p)) == Some(Released(s, p))
    ensures Free(Released(s, p)) && ProcessOf(Released(s, p), p) == Idle
    ensures !AtSwitched(ProcessOf(s, p)) ==> !AbandonsPointer(s, Kill(p))
  {
    hide Next;
  }

  lemma CurrentIsWhole(s: System)
    requires SystemInv(s)
    ensures s.disk.current.Some? ==> Intact(s.disk, s.disk.current.value)
  {
    hide Chain, Locks, Bound, WritersInv;
  }

  lemma {:induction false} EventsKeep(s: System, moves: seq<Move>, s': System)
    requires SystemInv(s) && AllCleared(s)
    requires OnlyHappens(moves) && LeadsTo(s, moves, s')
    ensures SystemInv(s') && AllCleared(s')
    decreases |moves|
  {
    hide SystemInv, AllCleared, Step;
    if moves != [] {
      var e := moves[0].event;
      StepKeepsInv(s, e, After(s, moves[0]));
      StepKeepsCleared(s, e, After(s, moves[0]));
      EventsKeep(After(s, moves[0]), moves[1..], s');
    }
  }

  lemma ReachedKeep(s: System, s': System)
    requires SystemInv(s) && AllCleared(s) && Reaches(s, s')
    ensures SystemInv(s') && AllCleared(s')
  {
    hide SystemInv, AllCleared, LeadsTo;
    var moves :| OnlyHappens(moves) && LeadsTo(s, moves, s');
    EventsKeep(s, moves, s');
  }
}
