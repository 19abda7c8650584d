/** A launch is prepared under the exclusive lock and run under a shared one, with
  any other processes in between (src/shuttle_gate/launch.py). */
module LaunchBinding {
  import opened Wrappers
  import opened StateDisk
  import opened StateProtocol
  import opened StateInvariant
  import opened StateTheorems

  /** What the manifest binds besides the generation; a digest stands for the content. */
  datatype Inputs = Inputs(
    project: string,
    configuration: string,
    identityName: string,
    identity: string,
    knownHostsName: string,
    knownHosts: string,
    application: string,
    bindAddresses: seq<string>,
    listenPort: nat)

  /** Identifiers that only have to look right: launch, instance and unit. */
  datatype Labels = Labels(launch: string, instance: string, unitName: string, wellFormed: bool)

  datatype LaunchManifest = LaunchManifest(labels: Labels, generation: Id, inputs: Inputs)

  datatype LaunchError = Uninitialized | BadLabels | InputsChanged

  /** `prepare_launch` (line 73), once the view is bound to `generation`. */
  function PrepareLaunch(labels: Labels, generation: Option<Id>, inputs: Inputs): Result<LaunchManifest, LaunchError> {
    if !labels.wellFormed then Err(BadLabels)
    else if generation.None? then Err(Uninitialized)
    else Ok(LaunchManifest(labels, generation.value, inputs))
  }

  /** `validate_launch_manifest` (line 117) against a view bound to `generation`. */
  function ValidateLaunch(m: LaunchManifest, generation: Option<Id>, inputs: Inputs): Option<LaunchError> {
    if !m.labels.wellFormed then Some(BadLabels)
    else if generation != Some(m.generation) || inputs != m.inputs then Some(InputsChanged)
    else None
  }

  /** Process `p` holds a view of the generation `current` names. */
  predicate Views(s: System, p: Pid, generation: Option<Id>, exclusive: bool) {
    ProcessOf(s, p).Reader? && ProcessOf(s, p).exclusive == exclusive
    && ProcessOf(s, p).bound == Some(generation)
  }

  // ---------------------------------------------- generation names are not reused

  ghost predicate DistinctIds(history: seq<Publication>) {
    forall i, k :: 0 <= i < k < |history| ==> history[i].id != history[k].id
  }

  lemma StepExtendsHistory(s: System, e: Event, s': System)
    requires SystemInv(s) && DistinctIds(s.history)
    requires Step(s, e) == Some(s')
    ensures s.history <= s'.history && DistinctIds(s'.history)
  {
    if e.WriterStep? && IsSwitch(ProcessOf(s, e.pid).phase, e.act) {
      var c, req := ConfigOf(s, e.pid), ProcessOf(s, e.pid).req;
      assert s'.history == HistoryAfter(s.history, req, c, e.act) by { hide Next; }
      assert CallInv(c, req, s.used, s.origin, s.history) by { hide Next, Step, CallInv, DiskInv, Chain; ConfigInv(s, e.pid); }
      hide Next, Step, SystemInv;
      SwitchNamesNew(c, req, s.used, s.origin, s.history);
      hide CallInv;
    } else {
      NoSwitchKeepsHistory(s, e, s');
    }
  }

  lemma SwitchNamesNew(c: Config, req: Request, used: set<Id>, origin: Tree, history: seq<Publication>)
    requires CallInv(c, req, used, origin, history)
    requires IsSwitch(c.phase, Advance)
    ensures forall i :: 0 <= i < |history| ==> history[i].id != c.phase.id
  {
  }

  lemma {:induction false} PlayExtendsHistory(s: System, events: seq<Event>, s': System)
    requires SystemInv(s) && DistinctIds(s.history)
    requires Play(s, events) == Some(s')
    ensures s.history <= s'.history && DistinctIds(s'.history) && SystemInv(s')
    decreases |events|
  {
    if events != [] {
      var next := Step(s, events[0]).value;
      hide SystemInv, Step, DistinctIds;
      StepKeepsInv(s, events[0], next);
      StepExtendsHistory(s, events[0], next);
      PlayExtendsHistory(next, events[1..], s');
    }
  }

  /** A generation name determines the generation's content for ever: two states of
    one run in which `current` names the same generation show the same tree. */
  lemma {:induction false} SameNameSameTree(s: System, s': System)
    requires SystemInv(s) && SystemInv(s')
    requires s.history <= s'.history && DistinctIds(s'.history)
    requires s.disk.current.Some? && s'.disk.current == s.disk.current
    ensures View(s'.disk) == View(s.disk) && View(s.disk).Some?
  {
    hide SystemInv;
    ViewIsLatest(s);
    ViewIsLatest(s');
    var i, k := |s.history| - 1, |s'.history| - 1;
    assert s'.history[i] == s.history[i];
    assert s'.history[i].id == s'.history[k].id;
    assert i == k;
  }

  // ------------------------------------------------------------------- binding

  /** A launch that validates runs on what was prepared: through any events between
    preparing and starting, and for as long as the gateway holds its view, `current`
    names the manifest's generation, with the tree that preparation checked, and
    every bound input is as it was. */
  lemma {:induction false} LaunchRunsWhatWasPrepared(
    s0: System, before: seq<Event>, prepared: System, between: seq<Event>, started: System,
    during: seq<Event>, s: System, preparer: Pid, gateway: Pid, generation: Option<Id>, bound: Option<Id>,
    labels: Labels, inputs: Inputs, present: Inputs, m: LaunchManifest)
    requires Initial(s0) && Play(s0, before) == Some(prepared)
    requires Views(prepared, preparer, generation, true)
    requires PrepareLaunch(labels, generation, inputs) == Ok(m)
    requires Play(prepared, between) == Some(started)
    requires Views(started, gateway, bound, false)
    requires ValidateLaunch(m, bound, present) == None
    requires Play(started, during) == Some(s)
    requires forall i :: 0 <= i < |during| ==> during[i].pid != gateway
    ensures s.disk.current == Some(m.generation) && Intact(s.disk, m.generation)
    ensures View(s.disk) == View(started.disk) == View(prepared.disk)
    ensures Views(s, gateway, bound, false)
    ensures present == inputs
  {
    hide Step, Play, SystemInv, Initial, View, Intact, PrepareLaunch, ValidateLaunch;
    LaunchAgrees(labels, generation, inputs, m, bound, present);
    StartedAsPrepared(s0, before, prepared, between, started, preparer, gateway, m.generation);
    ReaderSeesOneDisk(started, during, s, gateway);
  }

  /** Two processes bound to one generation name, at different times, see one tree. */
  lemma StartedAsPrepared(
    s0: System, before: seq<Event>, s: System, between: seq<Event>, s': System, p: Pid, q: Pid, g: Id)
    requires Initial(s0) && Play(s0, before) == Some(s) && Play(s, between) == Some(s')
    requires Views(s, p, Some(g), true) && Views(s', q, Some(g), false)
    ensures SystemInv(s') && s'.disk.current == Some(g) && Intact(s'.disk, g)
    ensures View(s'.disk) == View(s.disk)
  {
    InitialInv(s0);
    assert DistinctIds(s0.history) by { InitialHistory(s0); }
    hide Step, Play, SystemInv, Initial, DistinctIds, View, Intact;
    PlayExtendsHistory(s0, before, s);
    PlayExtendsHistory(s, between, s');
    BoundIsCurrent(s, p);
    BoundIsCurrent(s', q);
    SameNameSameTree(s, s');
    CurrentIsIntact(s');
  }

  lemma InitialHistory(s: System)
    requires Initial(s)
    ensures s.history == []
  {
  }

  lemma BoundIsCurrent(s: System, p: Pid)
    requires SystemInv(s) && ProcessOf(s, p).Reader? && ProcessOf(s, p).bound.Some?
    ensures ProcessOf(s, p).bound.value == s.disk.current
  {
    hide Chain, Locks, WritersInv, DiskInv;
  }

  lemma CurrentIsIntact(s: System)
    requires SystemInv(s) && s.disk.current.Some?
    ensures Intact(s.disk, s.disk.current.value)
  {
    hide Chain, Locks, WritersInv, Bound;
  }

  lemma LaunchAgrees(labels: Labels, generation: Option<Id>, inputs: Inputs, m: LaunchManifest,
                     bound: Option<Id>, present: Inputs)
    requires PrepareLaunch(labels, generation, inputs) == Ok(m)
    requires ValidateLaunch(m, bound, present) == None
    ensures generation == Some(m.generation) && bound == generation && present == inputs
  {
  }

  /** A prepared launch starts exactly when nothing was published since, in any
    interleaving, and no other bound input differs. */
  lemma {:induction false} LaunchStartsIffNothingChanged(
    s0: System, before: seq<Event>, prepared: System, between: seq<Event>, started: System,
    preparer: Pid, gateway: Pid, generation: Option<Id>, bound: Option<Id>,
    labels: Labels, inputs: Inputs, present: Inputs, m: LaunchManifest)
    requires Initial(s0) && Play(s0, before) == Some(prepared)
    requires Views(prepared, preparer, generation, true)
    requires PrepareLaunch(labels, generation, inputs) == Ok(m)
    requires Play(prepared, between) == Some(started)
    requires Views(started, gateway, bound, false)
    ensures ValidateLaunch(m, bound, present) == None <==>
      started.history == prepared.history && present == inputs
  {
    InitialInv(s0);
    assert DistinctIds(s0.history) by { InitialHistory(s0); }
    hide Step, Play, SystemInv, Initial, View, Intact;
    PlayExtendsHistory(s0, before, prepared);
    PlayExtendsHistory(prepared, between, started);
    BoundIsCurrent(prepared, preparer);
    BoundIsCurrent(started, gateway);
    ViewIsLatest(prepared);
    ViewIsLatest(started);
    SameLatestSameHistory(prepared.history, started.history);
  }

  lemma SameLatestSameHistory(prefix: seq<Publication>, history: seq<Publication>)
    requires prefix <= history && DistinctIds(history)
    ensures Latest(prefix) == Latest(history) <==> prefix == history
  {
    if prefix != history && prefix != [] {
      assert history[|prefix| - 1] == prefix[|prefix| - 1];
      assert history[|prefix| - 1].id != history[|history| - 1].id;
    }
  }

  // ------------------------------------------------------------- nested reads

  /** Paths are bound to a generation once a view is open. */
  datatype Paths = Plain | BoundPaths(data: Option<Id>)

  /** The event that opening a view through `paths` needs: none for bound paths
    (state.py line 196). */
  function LockEvent(paths: Paths, p: Pid, exclusive: bool): Option<Event> {
    if paths.BoundPaths? then None else Some(BeginRead(p, exclusive))
  }

  /** The tree a read through bound paths finds. */
  function TreeBehind(s: System, paths: Paths): Option<Tree> {
    if paths.BoundPaths? && paths.data.Some? && Generation(paths.data.value) in s.disk.generations
    then Some(s.disk.generations[Generation(paths.data.value)])
    else None
  }

  /** A holder's nested reads need no lock and find the generation it is bound to,
    whatever the other processes do meanwhile. */
  lemma {:induction false} NestedReadsNeedNoLock(
    s0: System, before: seq<Event>, s: System, during: seq<Event>, s': System, p: Pid, generation: Option<Id>,
    exclusive: bool, again: bool)
    requires Initial(s0) && Play(s0, before) == Some(s)
    requires Views(s, p, generation, exclusive)
    requires Play(s, during) == Some(s')
    requires forall i :: 0 <= i < |during| ==> during[i].pid != p
    ensures LockEvent(BoundPaths(generation), p, again) == None
    ensures TreeBehind(s', BoundPaths(generation)) == View(s.disk)
  {
    hide Step, Play, Initial;
    ReaderViewIsStable(s0, before, s, during, s', p);
  }

  /** While a process holds the exclusive lock, no events of others change anything. */
  lemma {:induction false} HolderStopsOthers(s: System, events: seq<Event>, s': System, p: Pid)
    requires SystemInv(s) && s.exclusive == Some(p)
    requires forall i :: 0 <= i < |events| ==> events[i].pid != p
    requires Play(s, events) == Some(s')
    ensures s' == s
    decreases |events|
  {
    if events != [] {
      assert events[0].pid != p;
      HolderIsAlone(s, p);
      assert Step(s, events[0]) == Some(s) by { hide Next, SystemInv; }
      forall i | 0 <= i < |events[1..]| ensures events[1..][i].pid != p {
        assert events[1..][i] == events[i + 1];
      }
      hide Step, SystemInv;
      HolderStopsOthers(s, events[1..], s', p);
    }
  }

  lemma HolderIsAlone(s: System, p: Pid)
    requires SystemInv(s) && s.exclusive == Some(p)
    ensures s.shared == {} && forall q: Pid :: q != p ==> ProcessOf(s, q) == Idle
  {
    hide Chain, Bound, DiskInv, WritersInv;
  }

  /** Had a holder of the exclusive lock opened its nested view through plain paths, it
    would wait for itself: whatever the others do, that shared lock is never granted
    while the holder waits, and an exclusive one is always refused as busy. */
  lemma {:induction false} PlainNestedReadWouldBlock(
    s0: System, before: seq<Event>, s: System, during: seq<Event>, s': System, p: Pid, q: Pid)
    requires Initial(s0) && Play(s0, before) == Some(s)
    requires s.exclusive == Some(p) && p != q
    requires Play(s, during) == Some(s')
    requires forall i :: 0 <= i < |during| ==> during[i].pid != p
    ensures LockEvent(Plain, q, false) == Some(BeginRead(q, false))
    ensures Step(s', BeginRead(q, false)) == None
    ensures Step(s', BeginRead(q, true)) == Some(s')
    ensures s'.disk == s.disk && ProcessOf(s', q) == Idle
  {
    hide Play, Initial, SystemInv, Next;
    ReachableInv(s0, before, s);
    HolderStopsOthers(s, during, s', p);
    HolderIsAlone(s, p);
  }
}
