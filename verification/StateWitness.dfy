/** A run in which a stop between the rename and its fsync loses a generation. */
module StateWitness {
  import opened Wrappers
  import opened StateDisk
  import opened StateProtocol
  import opened StateInvariant
  import opened StateTheorems
  import opened StatePowerLoss
  import opened StateRuns
  import opened StateAbandoned

  /** A mutation that writes nothing and is always valid. */
  function Touch(): Request {
    Request(_ => Execution([], Some("")), _ => true, _ => true, None)
  }

  lemma FreshIsAbsent(s: System, id: Id)
    requires SystemInv(s) && id !in s.used
    ensures Staging(id) !in s.disk.generations && Generation(id) !in s.disk.generations
  {
    hide Chain, Locks, Bound, WritersInv;
  }

  lemma ReachesCreated(f: System, p: Pid, id: Id) returns (c: Config)
    requires SystemInv(f) && Ready(f, p) && id !in f.used
    ensures c.phase == Copying(f.disk.current, id) && c.disk == NewDirectory(f.disk, Staging(id))
    ensures Reaches(f, InCall(f.(used := f.used + {id}), p, Touch(), c))
  {
    var d, req := f.disk, Touch();
    var skipped := ReachesDeciding(f, p, req);
    var c0 := Config(d, Deciding(d.current), skipped);
    var c1 := Config(d, Creating(d.current), skipped);
    c := Config(NewDirectory(d, Staging(id)), Copying(d.current, id), skipped);
    FreshIsAbsent(f, id);
    assert Next(req, c0, Advance) == Some(c1) && Next(req, c1, Create(id)) == Some(c);
    hide Next, Ready, Reaches, SystemInv, NewDirectory;
    ReachesByAct(f, p, req, c0, Advance, c1);
    CreatingStep(f, p, c1, id, c);
    ReachesFurther(f, InCall(f, p, req, c0), InCall(f, p, req, c1));
    ReachesFurther(f, InCall(f, p, req, c1), InCall(f.(used := f.used + {id}), p, req, c));
  }

  lemma CreatingStep(f: System, p: Pid, c: Config, id: Id, c': Config)
    requires Next(Touch(), c, Create(id)) == Some(c') && c.phase.Creating? && id !in f.used
    ensures Reaches(InCall(f, p, Touch(), c), InCall(f.(used := f.used + {id}), p, Touch(), c'))
  {
    hide Next, Reaches;
    var s, s' := InCall(f, p, Touch(), c), InCall(f.(used := f.used + {id}), p, Touch(), c');
    assert ConfigOf(s, p) == c;
    assert f.processes[p := Writer(Touch(), c.phase, c.skipped)][p := Writer(Touch(), c'.phase, c'.skipped)]
        == f.processes[p := Writer(Touch(), c'.phase, c'.skipped)];
    ReachesByStep(s, WriterStep(p, Create(id)), s');
  }

  /** How many operations of a publication come before the rename over `current`. */
  function Before(stage: Stage): nat {
    match stage
    case Mutated => 8
    case Recorded => 7
    case Validated => 6
    case Manifested => 5
    case TreeSynced => 4
    case Renamed => 3
    case NamesSynced => 2
    case Linked => 1
    case _ => 0
  }

  lemma {:induction false} ReachesLinkSynced(f: System, p: Pid, c: Config) returns (c': Config)
    requires c.phase.Publishing? && (Before(c.phase.stage) > 0 || c.phase.stage.LinkSynced?)
    ensures c'.phase == c.phase.(stage := LinkSynced)
    ensures Reaches(InCall(f, p, Touch(), c), InCall(f, p, Touch(), c'))
    decreases Before(c.phase.stage)
  {
    if c.phase.stage.LinkSynced? {
      c' := c;
      ReachesItself(InCall(f, p, Touch(), c));
    } else {
      var next := AdvancePublishing(Touch(), c);
      assert next.phase.Publishing? && next.phase.(stage := LinkSynced) == c.phase.(stage := LinkSynced);
      assert Before(next.phase.stage) == Before(c.phase.stage) - 1;
      assert next.phase.stage.LinkSynced? <==> Before(c.phase.stage) == 1;
      PublishingAdvances(Touch(), c);
      hide AdvancePublishing, Reaches;
      ReachesByAct(f, p, Touch(), c, Advance, next);
      c' := ReachesLinkSynced(f, p, next);
      ReachesFurther(InCall(f, p, Touch(), c), InCall(f, p, Touch(), next), InCall(f, p, Touch(), c'));
    }
  }

  /** A state right after the rename of a call that wrote nothing. */
  ghost predicate JustSwitched(s: System, p: Pid, active: Option<Id>, id: Id) {
    ProcessOf(s, p).Writer? && ProcessOf(s, p).req == Touch()
    && ProcessOf(s, p).phase == Publishing(active, id, "", Switched)
  }

  lemma SwitchingStep(f: System, p: Pid, c: Config, active: Option<Id>, id: Id) returns (s: System)
    requires c.phase == Publishing(active, id, "", LinkSynced)
    ensures Reaches(InCall(f, p, Touch(), c), s) && JustSwitched(s, p, active, id)
    ensures s.used == f.used && s.origin == f.origin
  {
    var before := InCall(f, p, Touch(), c);
    var c' := AdvancePublishing(Touch(), c);
    assert c'.phase == Publishing(active, id, "", Switched);
    assert ConfigOf(before, p) == c;
    PublishingAdvances(Touch(), c);
    hide AdvancePublishing, Reaches, HistoryAfter;
    s := Step(before, WriterStep(p, Advance)).value;
    ReachesByStep(before, WriterStep(p, Advance), s);
  }

  /** From a state with nothing to copy, a call gets as far as its rename. */
  lemma ReachesSwitched(f: System, p: Pid, id: Id) returns (s: System)
    requires SystemInv(f) && Ready(f, p) && id !in f.used
    requires Source(NewDirectory(f.disk, Staging(id)), f.disk.current) == map[]
    ensures Reaches(f, s) && JustSwitched(s, p, f.disk.current, id)
    ensures s.used == f.used + {id} && s.origin == f.origin
  {
    var req, active := Touch(), f.disk.current;
    var g := f.(used := f.used + {id});
    var c0 := ReachesCreated(f, p, id);
    var c1 := c0.(phase := Mutating(active, id, [], Some("")));
    var c2 := c0.(phase := Publishing(active, id, "", Mutated));
    assert StagedTree(c0.disk, id) == map[];
    assert Next(req, c0, Advance) == Some(c1) && Next(req, c1, Advance) == Some(c2);
    hide Next, Ready, Reaches, SystemInv;
    ReachesByAct(g, p, req, c0, Advance, c1);
    ReachesByAct(g, p, req, c1, Advance, c2);
    var c3 := ReachesLinkSynced(g, p, c2);
    s := SwitchingStep(g, p, c3, active, id);
    hide InCall, JustSwitched;
    ReachesFurther(f, InCall(g, p, req, c0), InCall(g, p, req, c1));
    ReachesFurther(f, InCall(g, p, req, c1), InCall(g, p, req, c2));
    ReachesFurther(f, InCall(g, p, req, c2), InCall(g, p, req, c3));
    ReachesFurther(f, InCall(g, p, req, c3), s);
  }

  /** The fsync after the rename. */
  lemma SyncingStep(s: System, p: Pid, id: Id) returns (s': System)
    requires SystemInv(s) && AllCleared(s) && JustSwitched(s, p, None, id)
    ensures Reaches(s, s') && SystemInv(s') && AllCleared(s')
    ensures ProcessOf(s', p).Writer? && ProcessOf(s', p).phase == Publishing(None, id, "", PointerSynced)
    ensures s'.disk.generations == s.disk.generations && s'.disk.current == s.disk.current
    ensures s'.used == s.used && s'.origin == s.origin
  {
    hide SystemInv, AllCleared, Reaches, Next, HistoryAfter;
    var c := ConfigOf(s, p);
    PublishingAdvances(Touch(), c);
    assert Next(Touch(), c, Advance) == Some(AdvancePublishing(Touch(), c)) by { AdvanceIsNext(Touch(), c); }
    s' := Step(s, WriterStep(p, Advance)).value;
    StepKeepsInv(s, WriterStep(p, Advance), s');
    StepKeepsCleared(s, WriterStep(p, Advance), s');
    ReachesByStep(s, WriterStep(p, Advance), s');
  }

  lemma AdvanceIsNext(req: Request, c: Config)
    ensures Next(req, c, Advance) == AdvanceFrom(req, c)
  {
    hide AdvanceFrom;
  }

  /** After it the call may stop: nothing is pending then. */
  lemma ReachesPublished(s: System, p: Pid, id: Id) returns (f: System)
    requires SystemInv(s) && AllCleared(s) && JustSwitched(s, p, None, id) && s.origin == map[]
    ensures Reaches(s, f) && Ready(f, p) && f.used == s.used && f.origin == s.origin
    ensures f.disk.current.Some? && Source(f.disk, f.disk.current) == map[]
  {
    PublishedNothing(s, p, id);
    hide SystemInv, Reaches, Step, AllCleared, JustSwitched, NoStrays, OnlyGenerations;
    var between := SyncingStep(s, p, id);
    f := Released(between, p);
    OnlyWriter(between, p);
    SwitchedIsCleared(between, p);
    KillFrees(between, p);
    ReachesByStep(between, Kill(p), f);
    CurrentIsWhole(between);
    ReachesFurther(s, between, f);
  }

  /** The first generation of such a call holds its manifest only. */
  lemma PublishedNothing(s: System, p: Pid, id: Id)
    requires SystemInv(s) && JustSwitched(s, p, None, id) && s.origin == map[]
    ensures s.disk.current.Some? && Source(s.disk, s.disk.current) == map[]
  {
    ReplacedIsThere(s, p);
    ViewIsLatest(s);
    var first := s.history[0];
    assert Continues(s.history, s.origin, 0);
    assert first.req.run(first.base) == Execution([], Some(""));
    assert Mutation(first.req, first.base) == map[];
    assert first.tree == map[Manifest := ManifestOf(first.id)];
    hide SystemInv, Chain;
    assert Carried(first.tree) == map[];
  }

  function EmptyStart(): System {
    System(Settled(Disk(map[], {}, None, map[], {}, {}, {}, map[], {})), None, {}, map[], {}, map[], [])
  }

  lemma EmptyStartIsReady(p: Pid, id: Id)
    ensures var s := EmptyStart();
      && Initial(s) && Ready(s, p) && id !in s.used && s.disk.current == None && s.origin == map[]
      && Source(NewDirectory(s.disk, Staging(id)), None) == map[]
  {
  }

  lemma NewDirectoryKeepsSource(d: Disk, id: Id)
    ensures d.current.Some? ==> Source(NewDirectory(d, Staging(id)), d.current) == Source(d, d.current)
  {
  }

  lemma ReachesFirst(p: Pid) returns (f: System)
    ensures Initial(EmptyStart()) && Reaches(EmptyStart(), f)
    ensures SystemInv(f) && AllCleared(f) && Ready(f, p) && f.used == {0}
    ensures f.disk.current.Some? && Source(f.disk, f.disk.current) == map[]
  {
    var s0 := EmptyStart();
    EmptyStartIsReady(p, 0);
    assert s0.used + {0} == {0};
    hide EmptyStart, SystemInv, AllCleared, Reaches, Ready, Initial, Source, JustSwitched;
    StartIsCleared(s0);
    var s := ReachesSwitched(s0, p, 0);
    ReachedKeep(s0, s);
    f := ReachesPublished(s, p, 0);
    ReachedKeep(s, f);
    ReachesFurther(s0, s, f);
  }

  lemma ReachesReplacing(p: Pid) returns (s: System)
    ensures Initial(EmptyStart()) && Reaches(EmptyStart(), s)
    ensures SystemInv(s) && AllCleared(s)
    ensures AtSwitched(ProcessOf(s, p)) && ProcessOf(s, p).phase.active.Some?
  {
    hide EmptyStart, SystemInv, AllCleared, Reaches, Ready, Initial, Source;
    var f := ReachesFirst(p);
    NewDirectoryKeepsSource(f.disk, 1);
    s := ReachesSwitched(f, p, 1);
    ReachedKeep(f, s);
    ReachesFurther(EmptyStart(), f, s);
  }

  /** A run from the start to a stop, and from there to where a power loss destroys. */
  ghost predicate LosingRun(s0: System, s: System, e: Event, s': System, u: System) {
    && Initial(s0) && Reaches(s0, s)
    && AbandonsPointer(s, e) && Step(s, e) == Some(s')
    && Reaches(s', u) && !PowerSafe(u)
  }

  /** It happens: from an empty instance, one call publishes; the next is killed between
    its rename and the fsync; a third begins its sweep.  Losing power then loses both
    generations: `current` leads to one without a manifest. */
  lemma {:induction false} StopThenSweepLosesAGeneration()
    ensures exists s0, s, e, s', u :: LosingRun(s0, s, e, s', u)
  {
    var p := 0;
    var s := ReachesReplacing(p);
    hide SystemInv, AllCleared, Reaches, Step, PowerSafe, Initial, EmptyStart;
    OnlyWriter(s, p);
    KillFrees(s, p);
    var u := RiskyStopReachesUnsafe(s, Kill(p), Released(s, p));
    assert LosingRun(EmptyStart(), s, Kill(p), Released(s, p), u);
  }
}
