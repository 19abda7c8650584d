/** Power loss: what may come back, from where later calls go on, and the one way in
  which the store can lose a generation. */
module StatePowerLoss {
  import opened Wrappers
  import opened StateDisk
  import opened StateProtocol
  import opened StateInvariant
  import opened StateTheorems

  /** The disk that came back holds a published generation, file for file with manifest
    and receipts, or no generation and the whole legacy tree. */
  ghost predicate Recovered(d: Disk, origin: Tree, history: seq<Publication>) {
    match d.current
    case None => d.legacy == origin
    case Some(g) =>
      exists i :: 0 <= i < |history| && history[i].id == g
                  && Generation(g) in d.generations && d.generations[Generation(g)] == history[i].tree
  }

  /** Power can be lost now, whatever it takes with it. */
  ghost predicate PowerSafe(s: System) {
    forall d: Disk :: AfterPowerLoss(s.disk, d) ==> Recovered(d, s.origin, s.history)
  }

  predicate AtSwitched(process: Process) {
    process.Writer? && process.phase.Publishing? && process.phase.stage.Switched?
  }

  /** The durable `current` is the visible one, or a live call is about to fsync it. */
  ghost predicate PointerAttended(s: System) {
    s.disk.pointers == {s.disk.current} || exists p: Pid :: AtSwitched(ProcessOf(s, p))
  }

  /** The one event after which nobody fsyncs the renamed pointer: the call stops
    between the rename and the fsync that follows it. */
  predicate AbandonsPointer(s: System, e: Event) {
    AtSwitched(ProcessOf(s, e.pid)) && (e.Kill? || (e.WriterStep? && e.act.Fail?))
  }

  // ----------------------------------------------------------- what comes back

  /** A durable generation comes back as it was, and under no second name. */
  lemma DurableComesBack(d: Disk, d': Disk, id: Id)
    requires Durable(d, id) && AfterPowerLoss(d, d')
    ensures Durable(d', id) && d'.generations[Generation(id)] == d.generations[Generation(id)]
  {
    AgreeingTreesAreEqual(d.generations[Generation(id)], d'.generations[Generation(id)]);
  }

  lemma LegacyComesBack(d: Disk, d': Disk)
    requires d.dirtyLegacy == {} && AfterPowerLoss(d, d')
    ensures d'.legacy == d.legacy
  {
    AgreeingTreesAreEqual(d.legacy, d'.legacy);
  }

  /** The publications that `current` still leads to. */
  function Surviving(history: seq<Publication>, current: Option<Id>): seq<Publication> {
    if history == [] || Latest(history) == current then history
    else Surviving(history[..|history| - 1], current)
  }

  /** The machine is up again: no process, no lock, and the history that survived. */
  function Restarted(s: System, d: Disk): System {
    System(d, None, {}, map[], s.used, s.origin, Surviving(s.history, d.current))
  }

  /** From where the last publication is durable, or the one before it while a call is
    between the rename and its fsync, what comes back is one of these two. */
  ghost predicate Resting(d: Disk, origin: Tree, history: seq<Publication>) {
    && (history == [] ==> d.legacy == origin && d.dirtyLegacy == {})
    && Anchored(d, history)
  }

  lemma RestingComesBack(d: Disk, d': Disk, origin: Tree, history: seq<Publication>)
    requires Resting(d.(current := d'.current), origin, history) && AfterPowerLoss(d, d')
    ensures Resting(d', origin, history)
  {
    if history == [] {
      LegacyComesBack(d, d');
    } else {
      DurableComesBack(d, d', history[|history| - 1].id);
    }
  }

  ghost predicate RestsOn(s: System, target: Option<Id>) {
    && Surviving(s.history, target) <= s.history
    && Resting(s.disk.(current := target), s.origin, Surviving(s.history, target))
    && Latest(Surviving(s.history, target)) == target
  }

  /** Whatever `current` comes back as, the publications up to there come back. */
  ghost predicate Restful(s: System) {
    forall target: Option<Id> :: target in s.disk.pointers ==> RestsOn(s, target)
  }

  /** An attended pointer comes back on the last publication, or on the one before. */
  lemma AttendedRests(s: System)
    requires SystemInv(s) && PointerAttended(s)
    ensures Restful(s)
  {
    forall target | target in s.disk.pointers ensures RestsOn(s, target) {
      AttendedRestsOn(s, target);
    }
  }

  lemma AttendedRestsOn(s: System, target: Option<Id>)
    requires SystemInv(s) && PointerAttended(s) && target in s.disk.pointers
    ensures RestsOn(s, target)
  {
    assert s.disk.(current := s.disk.current) == s.disk;
    if s.disk.pointers != {s.disk.current} {
      var p: Pid :| AtSwitched(ProcessOf(s, p));
      var before := s.history[..|s.history| - 1];
      assert target in {ProcessOf(s, p).phase.active, s.disk.current};
      hide Chain, Bound, Locks;
      if target != s.disk.current {
        assert Resting(s.disk.(current := target), s.origin, before);
        assert Latest(before) == target && Surviving(before, target) == before;
        assert Surviving(s.history, target) == before;
      }
    }
  }

  lemma AttendedIsPowerSafe(s: System)
    requires SystemInv(s) && PointerAttended(s)
    ensures PowerSafe(s)
  {
    AttendedRests(s);
    RestfulIsPowerSafe(s);
  }

  lemma RestfulIsPowerSafe(s: System)
    requires SystemInv(s) && Restful(s)
    ensures PowerSafe(s)
  {
    hide SystemInv, Restful;
    forall d: Disk | AfterPowerLoss(s.disk, d) ensures Recovered(d, s.origin, s.history) {
      RestartIsRecovered(s, d);
    }
  }

  /** After the loss: the surviving publications are the history, the last of them is
    what `current` names, and everything found is durable. */
  lemma {:induction false} RestartIsRecovered(s: System, d: Disk)
    requires SystemInv(s) && Restful(s)
    requires AfterPowerLoss(s.disk, d)
    ensures Recovered(d, s.origin, s.history)
    ensures SystemInv(Restarted(s, d)) && PointerAttended(Restarted(s, d))
  {
    var survived := Surviving(s.history, d.current);
    assert Chain(s.history, s.origin);
    assert d.current in s.disk.pointers;
    hide SystemInv, AfterPowerLoss, Resting, Surviving, Chain, DiskInv;
    RestingComesBack(s.disk, d, s.origin, survived);
    NamesComeBack(s, d);
    ChainPrefix(s.history, survived, s.origin);
    RestingIsRecovered(d, s.origin, s.history, survived);
    RestingDiskInv(s, d, survived);
    FreshSystemInv(Restarted(s, d));
  }

  lemma FreshSystemInv(s: System)
    requires s.exclusive == None && s.shared == {} && s.processes == map[]
    requires DiskInv(s.disk, s.used, s.origin, s.history) && Chain(s.history, s.origin)
    requires s.disk == Settled(s.disk)
    ensures SystemInv(s) && PointerAttended(s)
  {
    hide DiskInv, Chain;
  }

  lemma RestingIsRecovered(d: Disk, origin: Tree, history: seq<Publication>, survived: seq<Publication>)
    requires Resting(d, origin, survived) && survived <= history && d.current == Latest(survived)
    ensures Recovered(d, origin, history)
  {
    if survived != [] {
      var i := |survived| - 1;
      assert history[i] == survived[i];
      assert history[i].id == d.current.value;
    }
  }

  /** Names and identifiers that come back were there or were being changed. */
  lemma NamesComeBack(s: System, d: Disk)
    requires SystemInv(s) && AfterPowerLoss(s.disk, d)
    ensures forall n: Name :: n in d.generations && !n.Foreign? ==> n.id in s.used
    ensures d.current.Some? ==> d.current.value in s.used
    ensures d == Settled(d)
    ensures forall e: Entry :: e in s.origin ==> e.Data?
    ensures forall i :: 0 <= i < |s.history| ==> s.history[i].id in s.used
  {
    hide Chain, Locks, Bound, WritersInv, Anchored;
  }

  lemma RestingDiskInv(s: System, d: Disk, survived: seq<Publication>)
    requires Resting(d, s.origin, survived) && survived <= s.history
    requires d == Settled(d)
    requires forall n: Name :: n in d.generations && !n.Foreign? ==> n.id in s.used
    requires d.current.Some? ==> d.current.value in s.used
    requires forall e: Entry :: e in s.origin ==> e.Data?
    requires forall i :: 0 <= i < |s.history| ==> s.history[i].id in s.used
    ensures DiskInv(d, s.used, s.origin, survived)
  {
    hide Anchored;
    assert forall i :: 0 <= i < |survived| ==> survived[i] == s.history[i];
  }

  lemma ChainPrefix(history: seq<Publication>, prefix: seq<Publication>, origin: Tree)
    requires Chain(history, origin) && prefix <= history
    ensures Chain(prefix, origin)
  {
    hide Successful;
    forall i | 0 <= i < |prefix| ensures Continues(prefix, origin, i) {
      assert Continues(history, origin, i);
    }
  }

  // -------------------------------------------------- runs, with losses of power

  lemma PointersAfter(req: Request, c: Config, a: Act, c': Config)
    requires Next(req, c, a) == Some(c')
    ensures IsSwitch(c.phase, a) ==> c'.phase.Publishing? && c'.phase.stage.Switched?
    ensures !IsSwitch(c.phase, a) ==> c'.disk.current == c.disk.current
    ensures !IsSwitch(c.phase, a) ==> c'.disk.pointers == c.disk.pointers || c'.disk.pointers == {c.disk.current}
    ensures c.phase.Publishing? && c.phase.stage.Switched? && !a.Fail? ==> c'.disk.pointers == {c.disk.current}
  {
  }

  lemma PointerStaysAttended(s: System, e: Event, s': System)
    requires SystemInv(s) && PointerAttended(s)
    requires Step(s, e) == Some(s')
    requires !AbandonsPointer(s, e)
    ensures PointerAttended(s')
  {
    hide Chain, Bound, DiskInv, WritersInv, Next;
    if e.WriterStep? {
      var c := ConfigOf(s, e.pid);
      var req := ProcessOf(s, e.pid).req;
      PointersAfter(req, c, e.act, Next(req, c, e.act).value);
      if IsSwitch(c.phase, e.act) {
        assert AtSwitched(ProcessOf(s', e.pid));
      } else if s.disk.pointers != {s.disk.current} {
        var p: Pid :| AtSwitched(ProcessOf(s, p));
        assert p == e.pid;
      }
    } else {
      OtherStepFrame(s, e, s');
      if s.disk.pointers != {s.disk.current} {
        var p: Pid :| AtSwitched(ProcessOf(s, p));
        assert AtSwitched(ProcessOf(s', p));
      }
    }
  }

  /** What can happen to the machine: a process does something, or power is lost and
    comes back on this disk. */
  datatype Move = Happens(event: Event) | Loss(disk: Disk)

  ghost predicate Possible(s: System, m: Move) {
    match m
    case Happens(e) => Step(s, e).Some?
    case Loss(d) => AfterPowerLoss(s.disk, d)
  }

  ghost function After(s: System, m: Move): System
    requires Possible(s, m)
  {
    match m
    case Happens(e) => Step(s, e).value
    case Loss(d) => Restarted(s, d)
  }

  /** These moves lead from one state to the other, none of them a stop between the
    rename over `current` and its fsync. */
  ghost predicate LeadsTo(s: System, moves: seq<Move>, s': System)
    decreases |moves|
  {
    if moves == [] then s' == s
    else
      && Possible(s, moves[0])
      && (moves[0].Happens? ==> !AbandonsPointer(s, moves[0].event))
      && LeadsTo(After(s, moves[0]), moves[1..], s')
  }

  lemma MoveKeepsInv(s: System, m: Move)
    requires SystemInv(s) && PointerAttended(s)
    requires Possible(s, m) && (m.Happens? ==> !AbandonsPointer(s, m.event))
    ensures SystemInv(After(s, m)) && PointerAttended(After(s, m))
    ensures After(s, m).origin == s.origin
  {
    hide SystemInv, PointerAttended, AfterPowerLoss;
    match m
    case Happens(e) =>
      hide Next;
      assert After(s, m).origin == s.origin;
      hide Step;
      StepKeepsInv(s, e, After(s, m));
      PointerStaysAttended(s, e, After(s, m));
    case Loss(d) =>
      hide Step, Next;
      AttendedRests(s);
      RestartIsRecovered(s, d);
  }

  lemma {:induction false} MovesKeepInv(s: System, moves: seq<Move>, s': System)
    requires SystemInv(s) && PointerAttended(s)
    requires LeadsTo(s, moves, s')
    ensures SystemInv(s') && PointerAttended(s') && s'.origin == s.origin
    decreases |moves|
  {
    hide SystemInv, PointerAttended, Possible, After;
    if moves != [] {
      MoveKeepsInv(s, moves[0]);
      MovesKeepInv(After(s, moves[0]), moves[1..], s');
    }
  }

  /** Power can be lost at any point of any calls, again and again: unless a call stops
    between renaming over `current` and the fsync after it, every disk that can come
    back holds a whole published generation or the whole legacy tree, and the calls
    after it see exactly that, as the latest of a history of whole publications. */
  lemma {:induction false} PowerLossesAreSurvived(s0: System, moves: seq<Move>, s: System, d: Disk)
    requires Initial(s0)
    requires LeadsTo(s0, moves, s)
    requires AfterPowerLoss(s.disk, d)
    ensures Recovered(d, s0.disk.legacy, s.history)
    ensures var s' := Restarted(s, d);
      && s'.history <= s.history && Chain(s'.history, s0.disk.legacy)
      && View(s'.disk) == (if s'.history == [] then None else Some(s'.history[|s'.history| - 1].tree))
      && (s'.history == [] ==> s'.disk.legacy == s0.disk.legacy)
      && PowerSafe(s')
  {
    var s' := Restarted(s, d);
    InitialInv(s0);
    OriginIsLegacy(s0);
    assert PointerAttended(s0);
    hide Initial, SystemInv, PointerAttended, AfterPowerLoss, LeadsTo, Chain, PowerSafe, Recovered;
    MovesKeepInv(s0, moves, s);
    AttendedRests(s);
    assert s'.history <= s.history by { assert d.current in s.disk.pointers by { CurrentComesBack(s, d); } }
    RestartIsRecovered(s, d);
    AttendedIsPowerSafe(s');
    ViewIsLatest(s');
    RestartedBasics(s');
  }

  lemma CurrentComesBack(s: System, d: Disk)
    requires AfterPowerLoss(s.disk, d)
    ensures d.current in s.disk.pointers
  {
  }

  lemma RestartedBasics(s: System)
    requires SystemInv(s)
    ensures Chain(s.history, s.origin)
    ensures s.history == [] ==> s.disk.legacy == s.origin
  {
    hide Chain, Locks, Bound, WritersInv;
  }

  /** Over runs with losses of power in them too, readers see nothing, or the latest of
    a history in which every generation is the whole validated outcome of one call on
    the one before, and no operation occurs twice. */
  lemma {:induction false} PublicationSurvivesLosses(s0: System, moves: seq<Move>, s: System)
    requires Initial(s0) && LeadsTo(s0, moves, s)
    ensures Chain(s.history, s0.disk.legacy)
    ensures View(s.disk) == if s.history == [] then None else Some(s.history[|s.history| - 1].tree)
    ensures s.history == [] ==> s.disk.legacy == s0.disk.legacy
    ensures forall i, j :: 0 <= i < j < |s.history| && s.history[i].req.operation.Some?
                           && s.history[j].req.operation.Some? ==>
      s.history[i].req.operation.value.id != s.history[j].req.operation.value.id
  {
    InitialInv(s0);
    OriginIsLegacy(s0);
    assert PointerAttended(s0);
    hide Initial, SystemInv, PointerAttended, LeadsTo, Chain;
    MovesKeepInv(s0, moves, s);
    RestartedBasics(s);
    ViewIsLatest(s);
    forall i, j | 0 <= i < j < |s.history| && s.history[i].req.operation.Some? && s.history[j].req.operation.Some?
      ensures s.history[i].req.operation.value.id != s.history[j].req.operation.value.id
    {
      ChainedOperationsDiffer(s.history, s.origin, i, j);
    }
  }
}
