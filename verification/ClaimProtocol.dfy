/** N claim wrappers locking host-socket claims beside each other (claim.py line 52).

  Each takes its claims one by one, in ascending order, without waiting; on a
  conflict it gives back what it has, one file at a time, and returns. */
module ClaimProtocol {
  import opened Wrappers
  import opened TextOrder

  type Claim = string

  datatype Outcome =
    | Conflict(at: nat)     // exit code 73, at this position of its claims
    | Exited(code: int)     // the child's exit code
    | Failed                // a claim file or the child could not be opened

  datatype Wrapper =
    | Acquiring(held: nat)
    | Running
    | Releasing(held: nat, outcome: Outcome)
    | Done(outcome: Outcome)
    | Killed
    // Killed while its child ran: the locks are gone, the child goes on.
    | Orphaned

  /** Who holds the lock of which claim file. */
  datatype System = System(
    sets: seq<seq<Claim>>,
    wrappers: seq<Wrapper>,
    locks: map<Claim, nat>,
    // History: some wrapper has reached its child.
    won: bool)

  datatype Event =
    | TryLock(i: nat)
    | Launch(i: nat)
    | Exit(i: nat, code: int)
    | Release(i: nat)
    | Finish(i: nat)
    | Break(i: nat)
    | Kill(i: nat)
    | OrphanEnds(i: nat)

  predicate WellFormed(s: System) {
    |s.sets| == |s.wrappers|
  }

  function Without(locks: map<Claim, nat>, i: nat): map<Claim, nat> {
    map c | c in locks && locks[c] != i :: locks[c]
  }

  /** Whether wrapper `w` with this many claims can take the step next. */
  predicate Enabled(w: Wrapper, claims: nat, e: Event) {
    match e
    case TryLock(_) => w.Acquiring? && w.held < claims
    case Launch(_) => w.Acquiring? && w.held == claims
    case Exit(_, _) => w.Running?
    case Release(_) => w.Releasing? && 0 < w.held <= claims
    case Finish(_) => w.Releasing? && w.held == 0
    case Break(_) => w.Acquiring?
    case Kill(_) => !w.Done? && !w.Orphaned?
    case OrphanEnds(_) => w.Orphaned?
  }

  /** One step, or None when it is not possible. */
  function Step(s: System, e: Event): Option<System>
    requires WellFormed(s)
  {
    if e.i >= |s.wrappers| || !Enabled(s.wrappers[e.i], |s.sets[e.i]|, e) then None
    else
      var w := s.wrappers[e.i];
      var claims := s.sets[e.i];
      match e
      case TryLock(i) =>
        if claims[w.held] in s.locks then
          Some(s.(wrappers := s.wrappers[i := Releasing(w.held, Conflict(w.held))]))
        else
          Some(s.(wrappers := s.wrappers[i := Acquiring(w.held + 1)], locks := s.locks[claims[w.held] := i]))
      case Launch(i) =>
        Some(s.(wrappers := s.wrappers[i := Running], won := true))
      case Exit(i, code) =>
        Some(s.(wrappers := s.wrappers[i := Releasing(|claims|, Exited(code))]))
      case Release(i) =>
        Some(s.(wrappers := s.wrappers[i := Releasing(w.held - 1, w.outcome)],
                locks := s.locks - {claims[w.held - 1]}))
      case Finish(i) =>
        Some(s.(wrappers := s.wrappers[i := Done(w.outcome)]))
      case Break(i) =>
        Some(s.(wrappers := s.wrappers[i := Releasing(w.held, Failed)]))
      case Kill(i) =>
        // The kernel drops every lock of a dead process; the descriptors are not inherited.
        Some(s.(wrappers := s.wrappers[i := if w.Running? then Orphaned else Killed], locks := Without(s.locks, i)))
      case OrphanEnds(i) =>
        Some(s.(wrappers := s.wrappers[i := Killed]))
  }

  lemma StepKeepsShape(s: System, e: Event)
    requires WellFormed(s)
    requires Step(s, e).Some?
    ensures WellFormed(Step(s, e).value) && Step(s, e).value.sets == s.sets
    ensures |Step(s, e).value.wrappers| == |s.wrappers|
  {
  }

  function Play(s: System, events: seq<Event>): Option<System>
    requires WellFormed(s)
    decreases |events|
  {
    if events == [] then Some(s)
    else
      var next := Step(s, events[0]);
      if next.None? then None
      else
        assert WellFormed(next.value);
        Play(next.value, events[1..])
  }

  /** Every wrapper about to start, with strictly ascending claims, all of them free. */
  ghost predicate Initial(s: System) {
    && WellFormed(s)
    && s.locks == map[]
    && !s.won
    && (forall i :: 0 <= i < |s.wrappers| ==> s.wrappers[i] == Acquiring(0) && Ascending(s.sets[i]))
  }

  /** How many of its claims a wrapper holds: always the first ones. */
  function HeldCount(s: System, i: nat): nat
    requires WellFormed(s) && i < |s.wrappers|
  {
    match s.wrappers[i]
    case Acquiring(held) => held
    case Running => |s.sets[i]|
    case Releasing(held, _) => held
    case Done(_) => 0
    case Killed => 0
    case Orphaned => 0
  }

  function Held(s: System, i: nat): seq<Claim>
    requires WellFormed(s) && i < |s.wrappers|
  {
    if HeldCount(s, i) <= |s.sets[i]| then s.sets[i][..HeldCount(s, i)] else []
  }

  ghost predicate LocksMatch(s: System)
    requires WellFormed(s)
  {
    && (forall i :: 0 <= i < |s.wrappers| ==> HeldCount(s, i) <= |s.sets[i]|)
    && (forall i, c :: 0 <= i < |s.wrappers| && c in Held(s, i) ==> c in s.locks && s.locks[c] == i)
    && (forall c :: c in s.locks ==> s.locks[c] < |s.wrappers| && c in Held(s, s.locks[c]))
  }

  predicate Lost(w: Wrapper) {
    (w.Releasing? || w.Done?) && w.outcome.Conflict?
  }

  predicate ReachedChild(w: Wrapper) {
    w.Running? || w.Orphaned? || (w.Releasing? && w.outcome.Exited?) || (w.Done? && w.outcome.Exited?)
  }

  ghost predicate LostSomewhere(s: System)
    requires WellFormed(s)
  {
    forall i :: 0 <= i < |s.wrappers| && Lost(s.wrappers[i]) ==>
      s.wrappers[i].outcome.at < |s.sets[i]|
      && (s.wrappers[i].Releasing? ==> s.wrappers[i].held <= s.wrappers[i].outcome.at)
  }

  ghost predicate SystemInv(s: System) {
    && WellFormed(s)
    && (forall i :: 0 <= i < |s.sets| ==> Ascending(s.sets[i]))
    && LocksMatch(s)
    && LostSomewhere(s)
    && (!s.won ==> forall i :: 0 <= i < |s.wrappers| ==>
          !ReachedChild(s.wrappers[i]))
  }

  /** The claim that made a wrapper give up. */
  function LostClaim(s: System, i: nat): Claim
    requires WellFormed(s) && i < |s.wrappers| && Lost(s.wrappers[i])
  {
    if s.wrappers[i].outcome.at < |s.sets[i]| then s.sets[i][s.wrappers[i].outcome.at] else ""
  }

  /** At or above, in the order claims are taken. */
  predicate Above(a: Claim, b: Claim) {
    !Less(a, b)
  }

  /** The highest claim an acquiring wrapper holds. */
  function Top(s: System, w: nat): Claim
    requires WellFormed(s) && w < |s.wrappers|
  {
    if s.wrappers[w].Acquiring? && 0 < s.wrappers[w].held <= |s.sets[w]|
    then s.sets[w][s.wrappers[w].held - 1]
    else ""
  }

  /** Wrapper `w` is still acquiring and holds a claim at or above every lost one. */
  ghost predicate Leads(s: System, w: nat)
    requires WellFormed(s)
  {
    && w < |s.wrappers|
    && s.wrappers[w].Acquiring?
    && 0 < s.wrappers[w].held <= |s.sets[w]|
    && forall i :: 0 <= i < |s.wrappers| && Lost(s.wrappers[i]) ==> Above(Top(s, w), LostClaim(s, i))
  }

  /** Nobody has lost, or somebody reached its child, or somebody leads. */
  ghost predicate SomebodyWins(s: System)
    requires WellFormed(s)
  {
    || s.won
    || (forall i :: 0 <= i < |s.wrappers| ==> !Lost(s.wrappers[i]))
    || (exists w: nat :: Leads(s, w))
  }

  /** Runs without kills and without broken claim files or children. */
  predicate Smooth(e: Event) {
    !e.Kill? && !e.Break?
  }

  /** Only wrapper `i` may have changed. */
  ghost predicate OthersKept(s: System, s': System, i: nat) {
    && WellFormed(s) && WellFormed(s') && s'.sets == s.sets
    && |s'.wrappers| == |s.wrappers| && i < |s.wrappers|
    && (forall k :: 0 <= k < |s.wrappers| && k != i ==> s'.wrappers[k] == s.wrappers[k])
  }

  lemma StepKeepsOthers(s: System, e: Event, s': System)
    requires WellFormed(s) && Step(s, e) == Some(s')
    ensures OthersKept(s, s', e.i)
  {
  }

  lemma HeldFrame(s: System, s': System, i: nat)
    requires OthersKept(s, s', i)
    ensures forall k :: 0 <= k < |s.wrappers| && k != i ==>
      Held(s', k) == Held(s, k) && HeldCount(s', k) == HeldCount(s, k)
  {
  }

  lemma LockGranted(s: System, s': System, i: nat, c: Claim)
    requires OthersKept(s, s', i) && LocksMatch(s)
    requires HeldCount(s', i) <= |s.sets[i]|
    requires Held(s', i) == Held(s, i) + [c] && c !in s.locks && s'.locks == s.locks[c := i]
    ensures LocksMatch(s')
  {
    HeldFrame(s, s', i);
    hide Held, HeldCount;
  }

  lemma LockReleased(s: System, s': System, i: nat, c: Claim)
    requires OthersKept(s, s', i) && LocksMatch(s)
    requires HeldCount(s', i) <= |s.sets[i]|
    requires Held(s, i) == Held(s', i) + [c] && c !in Held(s', i) && s'.locks == s.locks - {c}
    ensures LocksMatch(s')
  {
    HeldFrame(s, s', i);
    assert c in Held(s, i);
    hide Held, HeldCount;
    forall k, other | 0 <= k < |s'.wrappers| && other in Held(s', k)
      ensures other in s'.locks && s'.locks[other] == k
    {
      assert other in Held(s, k);
      assert other != c by {
        assert s.locks[other] == k && s.locks[c] == i;
        assert k == i ==> other in Held(s', i);
      }
    }
    forall other | other in s'.locks
      ensures s'.locks[other] < |s'.wrappers| && other in Held(s', s'.locks[other])
    {
      assert other in Held(s, s.locks[other]);
    }
  }

  lemma LocksDropped(s: System, s': System, i: nat)
    requires OthersKept(s, s', i) && LocksMatch(s)
    requires HeldCount(s', i) == 0 && s'.locks == Without(s.locks, i)
    ensures LocksMatch(s')
  {
    HeldFrame(s, s', i);
    assert Held(s', i) == [];
    hide Held, HeldCount;
    forall k, c | 0 <= k < |s'.wrappers| && c in Held(s', k) ensures c in s'.locks && s'.locks[c] == k {
      assert k != i && c in Held(s, k);
    }
    forall c | c in s'.locks ensures s'.locks[c] < |s'.wrappers| && c in Held(s', s'.locks[c]) {
      assert c in Held(s, s.locks[c]);
    }
  }

  lemma LocksSame(s: System, s': System, i: nat)
    requires OthersKept(s, s', i) && LocksMatch(s)
    requires HeldCount(s', i) == HeldCount(s, i) && s'.locks == s.locks
    ensures LocksMatch(s')
  {
    HeldFrame(s, s', i);
    assert Held(s', i) == Held(s, i);
    hide Held, HeldCount;
  }

  lemma TryLockKeepsLocks(s: System, i: nat, s': System)
    requires WellFormed(s) && LocksMatch(s)
    requires Step(s, TryLock(i)) == Some(s')
    ensures LocksMatch(s')
  {
    StepKeepsOthers(s, TryLock(i), s');
    hide LocksMatch, OthersKept;
    var c := s.sets[i][s.wrappers[i].held];
    if c in s.locks {
      LocksSame(s, s', i);
    } else {
      assert Held(s', i) == Held(s, i) + [c];
      LockGranted(s, s', i, c);
    }
  }

  lemma ReleaseKeepsLocks(s: System, i: nat, s': System)
    requires WellFormed(s) && LocksMatch(s) && i < |s.sets| && Ascending(s.sets[i])
    requires Step(s, Release(i)) == Some(s')
    ensures LocksMatch(s')
  {
    StepKeepsOthers(s, Release(i), s');
    var claims, held := s.sets[i], s.wrappers[i].held;
    LastIsNew(claims, held);
    hide LocksMatch, OthersKept, Ascending;
    assert Held(s', i) == claims[..held - 1];
    assert Held(s, i) == Held(s', i) + [claims[held - 1]];
    LockReleased(s, s', i, claims[held - 1]);
  }

  lemma StepKeepsLocks(s: System, e: Event, s': System)
    requires SystemInv(s)
    requires Step(s, e) == Some(s')
    ensures LocksMatch(s')
  {
    StepKeepsOthers(s, e, s');
    hide LostSomewhere, OthersKept, Ascending, Without, Held;
    match e {
      case TryLock(i) => hide LocksMatch; TryLockKeepsLocks(s, i, s');
      case Release(i) => hide LocksMatch; ReleaseKeepsLocks(s, i, s');
      case Kill(i) => hide LocksMatch; LocksDropped(s, s', i);
      case _ => hide LocksMatch; LocksSame(s, s', e.i);
    }
  }

  lemma LastIsNew(claims: seq<Claim>, n: nat)
    requires 0 < n <= |claims| && Ascending(claims)
    ensures claims[n - 1] !in claims[..n - 1]
  {
    forall k | 0 <= k < n - 1 ensures claims[k] != claims[n - 1] {
      assert Less(claims[k], claims[n - 1]);
      LessIsTotal(claims[k], claims[n - 1]);
      LessIsTotal(claims[k], claims[k]);
    }
  }

  lemma StepKeepsLosses(s: System, e: Event, s': System)
    requires SystemInv(s)
    requires Step(s, e) == Some(s')
    ensures LostSomewhere(s')
    ensures !s'.won ==> forall i :: 0 <= i < |s'.wrappers| ==> !ReachedChild(s'.wrappers[i])
  {
    StepKeepsOthers(s, e, s');
    assert WonOnlyGrows(s, e, s') && LocksMatch(s);
    assert HeldCount(s, e.i) <= |s.sets[e.i]|;
    OwnStepLoses(s, e, s');
    hide Ascending, LocksMatch, Held, HeldCount, Without, Step;
  }

  predicate WonOnlyGrows(s: System, e: Event, s': System) {
    s'.won == (s.won || e.Launch?)
  }

  /** How a step leaves the wrapper that takes it. */
  lemma OwnStepLoses(s: System, e: Event, s': System)
    requires WellFormed(s) && Step(s, e) == Some(s')
    ensures WellFormed(s') && e.i < |s.wrappers| == |s'.wrappers|
    ensures var w, w' := s.wrappers[e.i], s'.wrappers[e.i];
      && (Lost(w') && !Lost(w) ==> w' == Releasing(w.held, Conflict(w.held)) && w.held < |s.sets[e.i]|)
      && (Lost(w') && Lost(w) ==>
            w'.outcome == w.outcome && (w'.Releasing? ==> w.Releasing? && w'.held <= w.held))
      && (ReachedChild(w') ==> ReachedChild(w) || s'.won)
  {
    hide Without;
  }

  lemma StepKeepsInv(s: System, e: Event, s': System)
    requires SystemInv(s)
    requires Step(s, e) == Some(s')
    ensures SystemInv(s')
  {
    StepKeepsShape(s, e);
    StepKeepsLocks(s, e, s');
    StepKeepsLosses(s, e, s');
    hide LocksMatch, Ascending, LostSomewhere, Step;
  }

  // ------------------------------------------------------- somebody always wins

  lemma AboveIsTransitive(a: Claim, b: Claim, c: Claim)
    requires Above(a, b) && Above(b, c)
    ensures Above(a, c)
  {
    LessIsTotal(a, b);
    LessIsTotal(b, c);
    LessIsTotal(a, c);
    if Less(a, c) {
      if b != c {
        LessIsTransitive(a, c, b);
      }
    }
  }

  /** Later claims of one wrapper are above its earlier ones. */
  lemma LaterIsAbove(s: System, i: nat, j: nat, k: nat)
    requires WellFormed(s) && i < |s.sets| && Ascending(s.sets[i])
    requires j <= k < |s.sets[i]|
    ensures Above(s.sets[i][k], s.sets[i][j])
    ensures j < k ==> !Above(s.sets[i][j], s.sets[i][k])
  {
    LessIsTotal(s.sets[i][k], s.sets[i][j]);
  }

  ghost predicate NoBreaks(s: System) {
    forall i :: 0 <= i < |s.wrappers| ==>
      !s.wrappers[i].Killed? && !s.wrappers[i].Orphaned?
      && !(s.wrappers[i].Releasing? && s.wrappers[i].outcome.Failed?)
      && !(s.wrappers[i].Done? && s.wrappers[i].outcome.Failed?)
  }

  /** Without kills, a wrapper that won stays one that won. */
  ghost predicate WinnerRemains(s: System) {
    s.won ==> exists i :: 0 <= i < |s.wrappers| && ReachedChild(s.wrappers[i])
  }

  lemma SmoothStepKeepsWinners(s: System, e: Event, s': System)
    requires WellFormed(s) && WinnerRemains(s) && NoBreaks(s)
    requires Smooth(e) && Step(s, e) == Some(s')
    ensures WinnerRemains(s')
  {
    if s.won {
      var i :| 0 <= i < |s.wrappers| && ReachedChild(s.wrappers[i]);
      assert ReachedChild(s'.wrappers[i]);
    } else if s'.won {
      assert ReachedChild(s'.wrappers[e.i]);
    }
  }

  /** A leader above the claim that was just lost still leads after the loss. */
  lemma LeaderSurvives(s: System, e: Event, s': System, w: nat)
    requires WellFormed(s) && Leads(s, w) && w != e.i
    requires e.TryLock? && Step(s, e) == Some(s')
    requires Lost(s'.wrappers[e.i])
    requires Above(Top(s, w), LostClaim(s', e.i))
    ensures Leads(s', w)
  {
    hide Less;
    assert Top(s', w) == Top(s, w);
    forall i | 0 <= i < |s'.wrappers| && Lost(s'.wrappers[i]) ensures Above(Top(s', w), LostClaim(s', i)) {
      if i != e.i {
        assert LostClaim(s', i) == LostClaim(s, i);
      }
    }
  }

  /** A holder of the claim at or above everything lost so far leads now. */
  lemma HolderTakesOver(s: System, e: Event, s': System, holder: nat, k: nat)
    requires WellFormed(s) && holder < |s.sets| && Ascending(s.sets[holder])
    requires e.TryLock? && Step(s, e) == Some(s') && Lost(s'.wrappers[e.i])
    requires holder < |s.wrappers| && holder != e.i && s.wrappers[holder].Acquiring?
    requires k < s.wrappers[holder].held <= |s.sets[holder]| && s.sets[holder][k] == LostClaim(s', e.i)
    requires forall i :: 0 <= i < |s.wrappers| && Lost(s.wrappers[i]) ==> Above(Top(s, holder), LostClaim(s, i))
    ensures Leads(s', holder)
  {
    LaterIsAbove(s, holder, k, s.wrappers[holder].held - 1);
    assert Above(Top(s, holder), LostClaim(s', e.i));
    assert e.i < |s.wrappers|;
    hide Less, Ascending, Lost, LostClaim, Above, Top, Step;
    assert Leads(s, holder);
    LeaderSurvives(s, e, s', holder);
  }

  /** The claim is held by another wrapper that is still acquiring: the higher of it
    and of the previous leader leads now. */
  lemma AcquiringHolderLeads(s: System, e: Event, s': System, holder: nat, k: nat)
    requires SystemInv(s) && SomebodyWins(s) && !s.won
    requires e.TryLock? && Step(s, e) == Some(s') && Lost(s'.wrappers[e.i])
    requires holder < |s.wrappers| && holder != e.i && s.wrappers[holder].Acquiring?
    requires k < s.wrappers[holder].held <= |s.sets[holder]| && s.sets[holder][k] == LostClaim(s', e.i)
    ensures exists w: nat :: Leads(s', w)
  {
    LaterIsAbove(s, holder, k, s.wrappers[holder].held - 1);
    assert Ascending(s.sets[holder]) && Ascending(s.sets[e.i]);
    hide Less, Ascending, LocksMatch, LostSomewhere, SystemInv;
    if exists i :: 0 <= i < |s.wrappers| && Lost(s.wrappers[i]) {
      var w: nat :| Leads(s, w);
      HigherLeads(s, e, s', holder, k, w);
    } else {
      HolderTakesOver(s, e, s', holder, k);
    }
  }

  lemma HigherLeads(s: System, e: Event, s': System, holder: nat, k: nat, w: nat)
    requires WellFormed(s) && Leads(s, w) && e.i < |s.sets| && Ascending(s.sets[e.i])
    requires holder < |s.sets| && Ascending(s.sets[holder])
    requires e.TryLock? && Step(s, e) == Some(s') && Lost(s'.wrappers[e.i])
    requires holder < |s.wrappers| && holder != e.i && s.wrappers[holder].Acquiring?
    requires k < s.wrappers[holder].held <= |s.sets[holder]| && s.sets[holder][k] == LostClaim(s', e.i)
    ensures exists w: nat :: Leads(s', w)
  {
    var top, lost := Top(s, holder), LostClaim(s', e.i);
    LaterIsAbove(s, holder, k, s.wrappers[holder].held - 1);
    assert Above(top, lost);
    if w == e.i {
      OwnTopIsBelow(s, w);
    }
    hide Less, Ascending, LostClaim, Top, Step;
    if Above(Top(s, w), lost) {
      assert w != e.i;
      LeaderSurvives(s, e, s', w);
    } else {
      AboveTheRest(top, lost, Top(s, w));
      LowerLeaderIsReplaced(s, e, s', holder, k, w);
    }
  }

  lemma LowerLeaderIsReplaced(s: System, e: Event, s': System, holder: nat, k: nat, w: nat)
    requires WellFormed(s) && holder < |s.sets| && Ascending(s.sets[holder]) && Leads(s, w)
    requires e.TryLock? && Step(s, e) == Some(s') && Lost(s'.wrappers[e.i])
    requires holder != e.i && s.wrappers[holder].Acquiring?
    requires k < s.wrappers[holder].held <= |s.sets[holder]| && s.sets[holder][k] == LostClaim(s', e.i)
    requires Above(Top(s, holder), Top(s, w))
    ensures Leads(s', holder)
  {
    hide Less, Ascending, LostClaim, Top, Step, Above;
    forall i | 0 <= i < |s.wrappers| && Lost(s.wrappers[i]) ensures Above(Top(s, holder), LostClaim(s, i)) {
      AboveIsTransitive(Top(s, holder), Top(s, w), LostClaim(s, i));
    }
    HolderTakesOver(s, e, s', holder, k);
  }

  lemma AboveTheRest(top: Claim, lost: Claim, other: Claim)
    requires Above(top, lost) && !Above(other, lost)
    ensures Above(top, other)
  {
    LessIsTotal(other, lost);
    AboveIsTransitive(top, lost, other);
  }

  /** The claim is still held by a loser giving back: it lost a higher claim, so the
    leader above that one is above this one too. */
  lemma ReleasingHolderHasLeader(s: System, e: Event, s': System, holder: nat, k: nat)
    requires SystemInv(s) && SomebodyWins(s) && !s.won
    requires e.TryLock? && Step(s, e) == Some(s') && Lost(s'.wrappers[e.i])
    requires holder < |s.wrappers| && holder != e.i && s.wrappers[holder].Releasing? && Lost(s.wrappers[holder])
    requires k < s.wrappers[holder].held && s.sets[holder][k] == LostClaim(s', e.i)
    ensures exists w: nat :: Leads(s', w)
  {
    hide Less, Ascending, LocksMatch;
    var w: nat :| Leads(s, w);
    var lost := LostClaim(s, holder);
    LaterIsAbove(s, holder, k, s.wrappers[holder].outcome.at);
    AboveIsTransitive(Top(s, w), lost, LostClaim(s', e.i));
    OwnTopIsBelow(s, e.i);
    LeaderSurvives(s, e, s', w);
  }

  /** The claim a wrapper is about to lock is above those it holds. */
  lemma OwnTopIsBelow(s: System, i: nat)
    requires WellFormed(s) && i < |s.sets| && Ascending(s.sets[i])
    requires s.wrappers[i].Acquiring? && s.wrappers[i].held < |s.sets[i]|
    ensures s.wrappers[i].held > 0 ==> !Above(Top(s, i), s.sets[i][s.wrappers[i].held])
    ensures s.sets[i][s.wrappers[i].held] !in s.sets[i][..s.wrappers[i].held]
  {
    LastIsNew(s.sets[i], s.wrappers[i].held + 1);
  }

  /** The loser of a conflict has a leader above it, if nobody has won. */
  lemma ConflictHasLeader(s: System, e: Event, s': System)
    requires SystemInv(s) && SomebodyWins(s) && NoBreaks(s) && !s.won
    requires e.TryLock? && Step(s, e) == Some(s')
    requires Lost(s'.wrappers[e.i])
    ensures exists w: nat :: Leads(s', w)
  {
    var c := s.sets[e.i][s.wrappers[e.i].held];
    var holder := s.locks[c];
    assert c in Held(s, holder);
    var k :| 0 <= k < HeldCount(s, holder) && s.sets[holder][k] == c;
    assert LostClaim(s', e.i) == c;
    OwnTopIsBelow(s, e.i);
    assert holder != e.i;
    hide Less, Ascending, LocksMatch, Leads;
    if s.wrappers[holder].Acquiring? {
      AcquiringHolderLeads(s, e, s', holder, k);
    } else {
      ReleasingHolderHasLeader(s, e, s', holder, k);
    }
  }

  lemma SmoothStepKeepsWinner(s: System, e: Event, s': System)
    requires SystemInv(s) && SomebodyWins(s) && NoBreaks(s)
    requires Smooth(e) && Step(s, e) == Some(s')
    ensures SomebodyWins(s') && NoBreaks(s')
  {
    hide Less, Ascending, LocksMatch, LostSomewhere;
    if !s'.won {
      if e.TryLock? && Lost(s'.wrappers[e.i]) {
        ConflictHasLeader(s, e, s');
      } else if exists i :: 0 <= i < |s.wrappers| && Lost(s.wrappers[i]) {
        var w: nat :| Leads(s, w);
        QuietStepKeepsLeader(s, e, s', w);
      }
    }
  }

  lemma QuietStepKeepsLeader(s: System, e: Event, s': System, w: nat)
    requires SystemInv(s) && Leads(s, w) && NoBreaks(s)
    requires Smooth(e) && Step(s, e) == Some(s') && !s'.won
    requires !(e.TryLock? && Lost(s'.wrappers[e.i]))
    ensures Leads(s', w)
  {
    hide Less, Ascending, LocksMatch, LostSomewhere;
    if w == e.i {
      LaterIsAbove(s, w, s.wrappers[w].held - 1, s.wrappers[w].held);
    } else {
      assert Top(s', w) == Top(s, w);
    }
    forall i | 0 <= i < |s'.wrappers| && Lost(s'.wrappers[i]) ensures Above(Top(s', w), LostClaim(s', i)) {
      assert Lost(s.wrappers[i]) && LostClaim(s', i) == LostClaim(s, i);
      if w == e.i {
        AboveIsTransitive(Top(s', w), Top(s, w), LostClaim(s, i));
      }
    }
  }

  lemma InitialInv(s: System)
    requires Initial(s)
    ensures SystemInv(s) && SomebodyWins(s) && NoBreaks(s) && WinnerRemains(s)
  {
  }

  lemma {:induction false} ReachableInv(s: System, events: seq<Event>, s': System)
    requires SystemInv(s)
    requires Play(s, events) == Some(s')
    ensures SystemInv(s') && s'.sets == s.sets && |s'.wrappers| == |s.wrappers|
    decreases |events|
  {
    if events != [] {
      var next := Step(s, events[0]).value;
      StepKeepsInv(s, events[0], next);
      hide LocksMatch, LostSomewhere, Ascending;
      ReachableInv(next, events[1..], s');
    }
  }

  lemma {:induction false} SmoothRunKeepsWinner(s: System, events: seq<Event>, s': System)
    requires SystemInv(s) && SomebodyWins(s) && NoBreaks(s) && WinnerRemains(s)
    requires forall i :: 0 <= i < |events| ==> Smooth(events[i])
    requires Play(s, events) == Some(s')
    ensures SystemInv(s') && SomebodyWins(s') && NoBreaks(s') && WinnerRemains(s')
    ensures |s'.wrappers| == |s.wrappers|
    decreases |events|
  {
    if events != [] {
      var next := Step(s, events[0]).value;
      StepKeepsInv(s, events[0], next);
      assert Smooth(events[0]);
      SmoothStepKeepsWinner(s, events[0], next);
      SmoothStepKeepsWinners(s, events[0], next);
      StepKeepsShape(s, events[0]);
      forall i | 0 <= i < |events[1..]| ensures Smooth(events[1..][i]) {
        assert events[1..][i] == events[i + 1];
      }
      hide LocksMatch, LostSomewhere, Ascending, SomebodyWins, NoBreaks, WinnerRemains, Step;
      SmoothRunKeepsWinner(next, events[1..], s');
    }
  }

  /** In every interleaving of wrappers that start with free claims, without kills or
    broken files, not all of them lose: as long as nobody has reached its child,
    somebody is still acquiring. */
  lemma {:induction false} NotAllLose(s0: System, events: seq<Event>, s: System)
    requires Initial(s0) && |s0.wrappers| > 0
    requires forall i :: 0 <= i < |events| ==> Smooth(events[i])
    requires Play(s0, events) == Some(s)
    ensures s.won || exists i :: 0 <= i < |s.wrappers| && s.wrappers[i].Acquiring?
    ensures (forall i :: 0 <= i < |s.wrappers| ==> s.wrappers[i].Done?) ==>
      exists i :: 0 <= i < |s.wrappers| && s.wrappers[i].outcome.Exited?
  {
    InitialInv(s0);
    SmoothRunKeepsWinner(s0, events, s);
    hide LocksMatch, LostSomewhere, Ascending, Play, Initial;
    SomebodyIsLeft(s);
  }

  lemma SomebodyIsLeft(s: System)
    requires WellFormed(s) && |s.wrappers| > 0
    requires SomebodyWins(s) && NoBreaks(s) && WinnerRemains(s)
    requires !s.won ==> forall i :: 0 <= i < |s.wrappers| ==> !ReachedChild(s.wrappers[i])
    ensures s.won || exists i :: 0 <= i < |s.wrappers| && s.wrappers[i].Acquiring?
    ensures (forall i :: 0 <= i < |s.wrappers| ==> s.wrappers[i].Done?) ==>
      exists i :: 0 <= i < |s.wrappers| && s.wrappers[i].outcome.Exited?
  {
    hide LostClaim, Top, Above;
    if !s.won && forall i :: 0 <= i < |s.wrappers| ==> !Lost(s.wrappers[i]) {
      assert s.wrappers[0].Acquiring?;
    }
  }

  /** Two wrappers that took two claims in opposite orders would both lose: without the
    strict ascent the parser demands, nobody need win. */
  lemma {:induction false} CrossedOrdersBothLose()
    ensures exists s0, events, s ::
      && WellFormed(s0) && s0.sets == [["a", "b"], ["b", "a"]]
      && s0.wrappers == [Acquiring(0), Acquiring(0)] && s0.locks == map[] && !s0.won
      && (forall i :: 0 <= i < |events| ==> Smooth(events[i]))
      && Play(s0, events) == Some(s)
      && s.wrappers == [Releasing(1, Conflict(1)), Releasing(1, Conflict(1))]
  {
    var s0 := System([["a", "b"], ["b", "a"]], [Acquiring(0), Acquiring(0)], map[], false);
    var s1 := s0.(wrappers := [Acquiring(1), Acquiring(0)], locks := map["a" := 0]);
    var s2 := s0.(wrappers := [Acquiring(1), Acquiring(1)], locks := map["a" := 0, "b" := 1]);
    var s3 := s2.(wrappers := [Releasing(1, Conflict(1)), Acquiring(1)]);
    var s4 := s2.(wrappers := [Releasing(1, Conflict(1)), Releasing(1, Conflict(1))]);
    Updated(Acquiring(0), Acquiring(0));
    Updated(Acquiring(1), Acquiring(0));
    Updated(Acquiring(1), Acquiring(1));
    Updated(Releasing(1, Conflict(1)), Acquiring(1));
    assert Step(s0, TryLock(0)) == Some(s1);
    assert Step(s1, TryLock(1)) == Some(s2);
    assert Step(s2, TryLock(0)) == Some(s3);
    assert Step(s3, TryLock(1)) == Some(s4);
    hide Step, Play;
    PlayNothing(s4);
    var events := PlayStep(s3, TryLock(1), s4, []);
    events := PlayStep(s2, TryLock(0), s3, events);
    events := PlayStep(s1, TryLock(1), s2, events);
    events := PlayStep(s0, TryLock(0), s1, events);
  }

  lemma Updated(a: Wrapper, b: Wrapper)
    ensures forall x :: [a, b][0 := x] == [x, b] && [a, b][1 := x] == [a, x]
  {
  }

  lemma PlayNothing(s: System)
    requires WellFormed(s)
    ensures Play(s, []) == Some(s)
  {
  }

  lemma PlayStep(s: System, e: Event, next: System, rest: seq<Event>) returns (events: seq<Event>)
    requires WellFormed(s) && Step(s, e) == Some(next) && WellFormed(next)
    requires Smooth(e) && forall i :: 0 <= i < |rest| ==> Smooth(rest[i])
    ensures Play(s, events) == Play(next, rest)
    ensures forall i :: 0 <= i < |events| ==> Smooth(events[i])
  {
    events := PlayOne(s, e, next, rest);
  }

  // ------------------------------------------------------------ mutual exclusion

  /** A child of this wrapper is alive. */
  predicate HasChild(w: Wrapper) {
    w.Running? || w.Orphaned?
  }

  predicate Overlap(s: System, i: nat, k: nat)
    requires WellFormed(s) && i < |s.sets| && k < |s.sets|
  {
    exists c :: c in s.sets[i] && c in s.sets[k]
  }

  /** Two children with a common claim are alive at once. */
  ghost predicate ChildrenOverlap(s: System)
    requires WellFormed(s)
  {
    exists i, k :: 0 <= i < |s.wrappers| && 0 <= k < |s.wrappers| && i != k
                   && HasChild(s.wrappers[i]) && HasChild(s.wrappers[k]) && Overlap(s, i, k)
  }

  /** An orphan has a claim in common with another child that is alive. */
  ghost predicate OrphanOverlaps(s: System)
    requires WellFormed(s)
  {
    exists i, k :: 0 <= i < |s.wrappers| && 0 <= k < |s.wrappers| && i != k
                   && s.wrappers[i].Orphaned? && HasChild(s.wrappers[k]) && Overlap(s, i, k)
  }

  /** In every run, kills and broken files included: a wrapper whose child runs holds all
    its claims, so children of live wrappers with a common claim never run side by side;
    and an ended or dead wrapper holds nothing. */
  lemma {:induction false} ChildrenExclude(s0: System, events: seq<Event>, s: System, i: nat, k: nat)
    requires Initial(s0) && Play(s0, events) == Some(s)
    requires i < |s.wrappers| && k < |s.wrappers| && i != k
    ensures WellFormed(s) && s.sets == s0.sets
    ensures s.wrappers[i].Running? && s.wrappers[k].Running? ==> !Overlap(s, i, k)
    ensures s.wrappers[i].Done? || s.wrappers[i].Killed? || s.wrappers[i].Orphaned? ==>
      forall c :: c in s.locks ==> s.locks[c] != i
    ensures s.wrappers[i].Running? ==> forall c :: c in s.sets[i] ==> c in s.locks && s.locks[c] == i
  {
    InitialInv(s0);
    ReachableInv(s0, events, s);
    hide *;
    LocksExclude(s, i, k);
  }

  /** Children exclude each other exactly as long as no orphan overlaps: a killed wrapper
    gives up its claims while its child lives on. */
  lemma {:induction false} OrphansAreTheException(s0: System, events: seq<Event>, s: System)
    requires Initial(s0) && Play(s0, events) == Some(s)
    ensures WellFormed(s)
    ensures ChildrenOverlap(s) <==> OrphanOverlaps(s)
    ensures (forall i :: 0 <= i < |s.wrappers| ==> !s.wrappers[i].Orphaned?) ==> !ChildrenOverlap(s)
  {
    InitialInv(s0);
    ReachableInv(s0, events, s);
    hide Play, Initial, SystemInv, Overlap;
    forall i, k | 0 <= i < |s.wrappers| && 0 <= k < |s.wrappers| && i != k
      ensures s.wrappers[i].Running? && s.wrappers[k].Running? ==> !Overlap(s, i, k)
      ensures Overlap(s, i, k) == Overlap(s, k, i)
    {
      LocksExclude(s, i, k);
      OverlapIsSymmetric(s, i, k);
    }
  }

  lemma OverlapIsSymmetric(s: System, i: nat, k: nat)
    requires WellFormed(s) && i < |s.sets| && k < |s.sets|
    ensures Overlap(s, i, k) == Overlap(s, k, i)
  {
  }

  /** It happens: a wrapper is killed, and before its child has ended another wrapper
    with the same claim starts its own. */
  lemma {:induction false} OrphanCanOverlap()
    ensures exists s0, events, s ::
      Initial(s0) && Play(s0, events) == Some(s) && WellFormed(s) && ChildrenOverlap(s)
  {
    var s0 := System([["a"], ["a"]], [Acquiring(0), Acquiring(0)], map[], false);
    var s1 := s0.(wrappers := [Acquiring(1), Acquiring(0)], locks := map["a" := 0]);
    var s2 := s1.(wrappers := [Running, Acquiring(0)], won := true);
    var s3 := s2.(wrappers := [Orphaned, Acquiring(0)], locks := map[]);
    var s4 := s3.(wrappers := [Orphaned, Acquiring(1)], locks := map["a" := 1]);
    var s5 := s4.(wrappers := [Orphaned, Running]);
    Updated(Acquiring(0), Acquiring(0));
    Updated(Acquiring(1), Acquiring(0));
    Updated(Running, Acquiring(0));
    Updated(Orphaned, Acquiring(0));
    Updated(Orphaned, Acquiring(1));
    assert Step(s0, TryLock(0)) == Some(s1);
    assert Step(s1, Launch(0)) == Some(s2);
    assert Step(s2, Kill(0)) == Some(s3) by { assert Without(s2.locks, 0) == map[]; }
    assert Step(s3, TryLock(1)) == Some(s4);
    assert Step(s4, Launch(1)) == Some(s5);
    assert Initial(s0);
    assert "a" in s5.sets[0] && "a" in s5.sets[1];
    assert Overlap(s5, 0, 1) && HasChild(s5.wrappers[0]) && HasChild(s5.wrappers[1]);
    hide Step, Play, Initial;
    PlayNothing(s5);
    var events := PlayOne(s4, Launch(1), s5, []);
    events := PlayOne(s3, TryLock(1), s4, events);
    events := PlayOne(s2, Kill(0), s3, events);
    events := PlayOne(s1, Launch(0), s2, events);
    events := PlayOne(s0, TryLock(0), s1, events);
    assert ChildrenOverlap(s5);
  }

  lemma PlayOne(s: System, e: Event, next: System, rest: seq<Event>) returns (events: seq<Event>)
    requires WellFormed(s) && Step(s, e) == Some(next) && WellFormed(next)
    ensures Play(s, events) == Play(next, rest)
    ensures events == [e] + rest
  {
    events := [e] + rest;
    assert events[1..] == rest;
  }

  lemma LocksExclude(s: System, i: nat, k: nat)
    requires SystemInv(s) && i < |s.wrappers| && k < |s.wrappers| && i != k
    ensures s.wrappers[i].Running? && s.wrappers[k].Running? ==> !Overlap(s, i, k)
    ensures s.wrappers[i].Done? || s.wrappers[i].Killed? || s.wrappers[i].Orphaned? ==>
      forall c :: c in s.locks ==> s.locks[c] != i
    ensures s.wrappers[i].Running? ==> forall c :: c in s.sets[i] ==> c in s.locks && s.locks[c] == i
  {
    assert LocksMatch(s);
    assert s.wrappers[i].Running? ==> Held(s, i) == s.sets[i];
    assert s.wrappers[k].Running? ==> Held(s, k) == s.sets[k];
    assert s.wrappers[i].Done? || s.wrappers[i].Killed? || s.wrappers[i].Orphaned? ==> Held(s, i) == [];
    hide Ascending, LostSomewhere, Held, HeldCount;
    forall c ensures c in Held(s, i) && c in s.locks ==> s.locks[c] == i {}
    forall c ensures c in Held(s, k) && c in s.locks ==> s.locks[c] == k {}
  }

  lemma TryLockMeans(s: System, i: nat, s': System)
    requires WellFormed(s) && Step(s, TryLock(i)) == Some(s')
    ensures i < |s.wrappers| && s.wrappers[i].Acquiring? && s.wrappers[i].held < |s.sets[i]|
    ensures var claim := s.sets[i][s.wrappers[i].held];
      if claim in s.locks
      then s'.wrappers[i] == Releasing(s.wrappers[i].held, Conflict(s.wrappers[i].held)) && s'.locks == s.locks
      else s'.wrappers[i] == Acquiring(s.wrappers[i].held + 1) && s'.locks == s.locks[claim := i]
  {
  }

  /** The next claim of a wrapper is locked exactly when another wrapper holds it. */
  lemma LockedByHolder(s: System, i: nat)
    requires SystemInv(s) && i < |s.wrappers|
    ensures s.wrappers[i].Acquiring? && s.wrappers[i].held < |s.sets[i]| ==>
      (s.sets[i][s.wrappers[i].held] in s.locks <==>
        exists k :: 0 <= k < |s.wrappers| && k != i && s.sets[i][s.wrappers[i].held] in Held(s, k))
  {
    if s.wrappers[i].Acquiring? && s.wrappers[i].held < |s.sets[i]| {
      OwnTopIsBelow(s, i);
      var claim := s.sets[i][s.wrappers[i].held];
      assert claim !in Held(s, i);
      hide Held, HeldCount, Ascending, LostSomewhere;
      if claim in s.locks {
        assert claim in Held(s, s.locks[claim]);
      }
    }
  }

  /** A wrapper that is dead or done takes no further step; an orphan's only step is the
    end of its child, and of a dead wrapper no lock is left. */
  lemma {:induction false} DeadWrappersRest(s: System, e: Event, s': System)
    requires WellFormed(s) && Step(s, e) == Some(s')
    ensures !s.wrappers[e.i].Done?
    ensures s.wrappers[e.i].Orphaned? ==> e.OrphanEnds? && s'.wrappers[e.i].Killed? && s'.locks == s.locks
    ensures e.Kill? ==>
      && s'.wrappers[e.i] == (if s.wrappers[e.i].Running? then Orphaned else Killed)
      && forall c :: c in s'.locks ==> s'.locks[c] != e.i
  {
  }

  /** A wrapper loses at a claim exactly when another live wrapper holds that claim then;
    else it holds one claim more. */
  lemma {:induction false} ConflictMeansHeldElsewhere(s0: System, events: seq<Event>, s: System, i: nat, s': System)
    requires Initial(s0) && Play(s0, events) == Some(s)
    requires WellFormed(s) && Step(s, TryLock(i)) == Some(s')
    ensures i < |s.wrappers| && s.wrappers[i].Acquiring? && s.wrappers[i].held < |s.sets[i]|
    ensures var claim := s.sets[i][s.wrappers[i].held];
      if exists k :: 0 <= k < |s.wrappers| && k != i && claim in Held(s, k)
      then s'.wrappers[i] == Releasing(s.wrappers[i].held, Conflict(s.wrappers[i].held)) && s'.locks == s.locks
      else s'.wrappers[i] == Acquiring(s.wrappers[i].held + 1) && s'.locks == s.locks[claim := i]
  {
    InitialInv(s0);
    hide Step, SystemInv, Initial;
    ReachableInv(s0, events, s);
    LockedByHolder(s, i);
    TryLockMeans(s, i, s');
    hide Held, Play;
  }

  /** A step of one wrapper, losing and giving back included, leaves every lock of the
    others as it was: it neither takes one nor drops one. */
  lemma {:induction false} OthersLocksKept(s0: System, events: seq<Event>, s: System, e: Event, s': System, k: nat)
    requires Initial(s0) && Play(s0, events) == Some(s)
    requires WellFormed(s) && Step(s, e) == Some(s')
    requires k < |s.wrappers| && k != e.i
    ensures forall c :: c in s.locks && s.locks[c] == k <==> c in s'.locks && s'.locks[c] == k
  {
    InitialInv(s0);
    ReachableInv(s0, events, s);
    StepKeepsInv(s, e, s');
    StepKeepsOthers(s, e, s');
    hide *;
    LocksFollowHolders(s, s', e.i, k);
  }

  lemma LocksFollowHolders(s: System, s': System, i: nat, k: nat)
    requires SystemInv(s) && SystemInv(s') && OthersKept(s, s', i)
    requires k < |s.wrappers| && k != i
    ensures forall c :: c in s.locks && s.locks[c] == k <==> c in s'.locks && s'.locks[c] == k
  {
    HeldFrame(s, s', i);
    assert Held(s', k) == Held(s, k);
    assert LocksMatch(s) && LocksMatch(s');
    hide Ascending, LostSomewhere, Held, HeldCount, OthersKept;
    forall c ensures (c in s.locks && s.locks[c] == k <==> c in Held(s, k)) {}
    forall c ensures (c in s'.locks && s'.locks[c] == k <==> c in Held(s', k)) {}
  }
}
