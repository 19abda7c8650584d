/** The claim wrapper itself (claim.py line 52), among others it does not control. */
module ClaimRunner {
  import opened Wrappers
  import opened TextOrder
  import opened ClaimProtocol

  /** The steps one wrapper took. */
  function By(events: seq<Event>, me: nat): seq<Event>
    decreases |events|
  {
    if events == [] then []
    else if events[0].i == me then [events[0]] + By(events[1..], me)
    else By(events[1..], me)
  }

  function Repeat(e: Event, n: nat): seq<Event> {
    seq(n, _ => e)
  }

  /** All steps of a wrapper that ends with this outcome. */
  function Script(me: nat, claims: nat, outcome: Outcome, broken: nat): seq<Event> {
    match outcome
    case Conflict(at) => Repeat(TryLock(me), at + 1) + Repeat(Release(me), at) + [Finish(me)]
    case Exited(code) =>
      Repeat(TryLock(me), claims) + [Launch(me), Exit(me, code)] + Repeat(Release(me), claims) + [Finish(me)]
    case Failed => Repeat(TryLock(me), broken) + [Break(me)] + Repeat(Release(me), broken) + [Finish(me)]
  }

  lemma ScriptFromParts(own: seq<Event>, me: nat, claims: nat, outcome: Outcome, broken: nat)
    ensures outcome.Conflict? ==>
      own + Repeat(TryLock(me), outcome.at + 1) + Repeat(Release(me), outcome.at) + [Finish(me)]
      == own + Script(me, claims, outcome, broken)
    ensures outcome.Failed? ==>
      own + Repeat(TryLock(me), broken) + [Break(me)] + Repeat(Release(me), broken) + [Finish(me)]
      == own + Script(me, claims, outcome, broken)
    ensures outcome.Exited? ==>
      own + Repeat(TryLock(me), claims) + [Launch(me), Exit(me, outcome.code)]
          + Repeat(Release(me), claims) + [Finish(me)]
      == own + Script(me, claims, outcome, broken)
  {
  }

  lemma RepeatMore(own: seq<Event>, e: Event, n: nat)
    ensures own + Repeat(e, n) + [e] == own + Repeat(e, n + 1)
  {
  }

  lemma LockOutcomes(s: System, i: nat, s': System)
    requires WellFormed(s) && Step(s, TryLock(i)) == Some(s')
    ensures i < |s.wrappers| == |s'.wrappers|
    ensures var held := s.wrappers[i].held;
      s'.wrappers[i] == if s'.wrappers[i].Releasing? then Releasing(held, Conflict(held)) else Acquiring(held + 1)
  {
  }

  lemma {:induction false} ByAppend(events: seq<Event>, e: Event, me: nat)
    ensures By(events + [e], me) == By(events, me) + (if e.i == me then [e] else [])
    decreases |events|
  {
    if events == [] {
      assert events + [e] == [e];
    } else {
      assert (events + [e])[1..] == events[1..] + [e];
      ByAppend(events[1..], e, me);
    }
  }

  lemma {:induction false} PlayAppend(s0: System, events: seq<Event>, s: System, e: Event)
    requires WellFormed(s0) && Play(s0, events) == Some(s) && WellFormed(s)
    ensures Play(s0, events + [e]) == Step(s, e)
    decreases |events|
  {
    if events == [] {
      assert events + [e] == [e];
    } else {
      assert (events + [e])[1..] == events[1..] + [e];
      var next := Step(s0, events[0]).value;
      StepKeepsShape(s0, events[0]);
      hide Step;
      PlayAppend(next, events[1..], s, e);
    }
  }

  /** How a wrapper leaves its lock loop. */
  predicate Acquired(w: Wrapper, claims: nat, fails: bool) {
    match w
    case Acquiring(held) => if fails then held < claims else held == claims
    case Releasing(held, outcome) => outcome == Conflict(held) && held < claims
    case _ => false
  }

  function Tries(w: Wrapper): nat {
    match w
    case Acquiring(held) => held
    case Releasing(held, _) => held + 1
    case _ => 0
  }

  /** The kernel's lock table with the processes that use it. */
  class Host {
    var system: System
    ghost var origin: System
    ghost var events: seq<Event>
    // Whether a claim file or the child could not be opened.
    ghost var faulted: bool

    ghost predicate Valid()
      reads this
    {
      && Initial(origin)
      && Play(origin, events) == Some(system)
      && SystemInv(system)
      && |system.wrappers| == |origin.wrappers| && system.sets == origin.sets
    }

    constructor (sets: seq<seq<Claim>>)
      requires forall i :: 0 <= i < |sets| ==> Ascending(sets[i])
      ensures Valid() && system.sets == sets && events == []
      ensures forall i :: 0 <= i < |sets| ==> system.wrappers[i] == Acquiring(0)
    {
      var start := System(sets, seq(|sets|, _ => Acquiring(0)), map[], false);
      system := start;
      origin := start;
      events := [];
      faulted := false;
      new;
      InitialInv(start);
    }

    /** Whether the environment makes the next operation fail. */
    method Faulty() returns (fault: bool)
      modifies `faulted
      ensures faulted == (old(faulted) || fault) && (old(Valid()) ==> Valid())
    {
      fault := *;
      faulted := faulted || fault;
    }

    /** One step of any wrapper. */
    method Take(e: Event)
      requires Valid() && Step(system, e).Some?
      modifies `system, `events
      ensures Valid() && origin == old(origin)
      ensures Some(system) == Step(old(system), e)
      ensures events == old(events) + [e]
      ensures system.sets == old(system.sets) && |system.wrappers| == |old(system).wrappers|
    {
      var next := Step(system, e).value;
      PlayAppend(origin, events, system, e);
      StepKeepsInv(system, e, next);
      StepKeepsShape(system, e);
      hide *;
      system := next;
      events := events + [e];
    }

    /** Any number of steps of the other wrappers. */
    method Interfere(me: nat)
      requires Valid() && me < |system.wrappers|
      modifies `system, `events
      ensures Valid() && origin == old(origin)
      ensures system.sets == old(system.sets) && |system.wrappers| == |old(system).wrappers|
      ensures system.wrappers[me] == old(system).wrappers[me]
      ensures By(events, me) == By(old(events), me)
    {
      var rounds: int := *;
      for k := 0 to if rounds < 0 then 0 else rounds
        invariant Valid() && origin == old(origin)
        invariant system.sets == old(system.sets) && |system.wrappers| == |old(system).wrappers|
        invariant system.wrappers[me] == old(system).wrappers[me]
        invariant By(events, me) == By(old(events), me)
      {
        var e: Event := *;
        if e.i != me && Step(system, e).Some? {
          ByAppend(events, e, me);
          Take(e);
        }
      }
    }

    /** One step of a wrapper, after any steps of the others. */
    method Own(e: Event) returns (ghost before: System)
      requires Valid() && e.i < |system.wrappers|
      requires Enabled(system.wrappers[e.i], |system.sets[e.i]|, e)
      modifies `system, `events
      ensures Valid() && origin == old(origin)
      ensures By(events, e.i) == By(old(events), e.i) + [e]
      ensures system.sets == old(system.sets) && e.i < |system.wrappers|
      ensures WellFormed(before) && before.sets == system.sets && |before.wrappers| == |system.wrappers|
      ensures before.wrappers[e.i] == old(system).wrappers[e.i]
      ensures Step(before, e) == Some(system)
    {
      Interfere(e.i);
      before := system;
      ByAppend(events, e, e.i);
      Take(e);
    }

    /** The `finally` block: close what was locked, the last one first. */
    method GiveBack(me: nat)
      requires Valid() && me < |system.wrappers| && system.wrappers[me].Releasing?
      modifies `system, `events
      ensures Valid() && origin == old(origin) && me < |system.wrappers|
      ensures system.wrappers[me] == Done(old(system).wrappers[me].outcome)
      ensures By(events, me) ==
        By(old(events), me) + Repeat(Release(me), old(system).wrappers[me].held) + [Finish(me)]
    {
      ghost var own := By(events, me);
      var held, outcome := system.wrappers[me].held, system.wrappers[me].outcome;
      assert HeldCount(system, me) <= |system.sets[me]|;
      assert own + Repeat(Release(me), 0) == own;
      hide Valid, By;
      for k := 0 to held
        invariant Valid() && origin == old(origin) && WellFormed(system) && me < |system.wrappers|
        invariant system.sets == old(system.sets)
        invariant system.wrappers[me] == Releasing(held - k, outcome)
        invariant By(events, me) == own + Repeat(Release(me), k)
      {
        var before := Own(Release(me));
        RepeatMore(own, Release(me), k);
      }
      var before := Own(Finish(me));
    }

    /** The loop over the claims: all locked, or a conflict, or a claim file that
      cannot be opened. */
    method Acquire(me: nat) returns (fails: bool)
      requires Valid() && me < |system.wrappers| && system.wrappers[me] == Acquiring(0)
      modifies this
      ensures Valid() && origin == old(origin)
      ensures me < |system.wrappers| && system.sets == old(system.sets) && WellFormed(system)
      ensures Acquired(system.wrappers[me], |system.sets[me]|, fails)
      ensures old(faulted) || fails ==> faulted
      ensures By(events, me) == By(old(events), me) + Repeat(TryLock(me), Tries(system.wrappers[me]))
    {
      ghost var own := By(events, me);
      assert own + Repeat(TryLock(me), 0) == own;
      hide By, Valid, Step, Repeat;
      fails := false;
      var count := |system.sets[me]|;
      for k := 0 to count
        invariant Valid() && origin == old(origin) && WellFormed(system) && me < |system.wrappers|
        invariant system.sets == old(system.sets) && |system.sets[me]| == count && !fails
        invariant system.wrappers[me] == Acquiring(k)
        invariant By(events, me) == own + Repeat(TryLock(me), k)
        invariant old(faulted) ==> faulted
      {
        fails := Faulty();
        if fails {
          return;
        }
        var before := Own(TryLock(me));
        LockOutcomes(before, me, system);
        RepeatMore(own, TryLock(me), k);
        if system.wrappers[me].Releasing? {
          return;
        }
      }
    }

    /** `subprocess.run` with every claim locked; starting the child can fail as well as
      opening a claim. */
    method RunChild(me: nat, fails: bool)
      requires Valid() && me < |system.wrappers| && system.wrappers[me].Acquiring?
      requires !fails ==> system.wrappers[me].held == |system.sets[me]|
      modifies this
      ensures Valid() && origin == old(origin)
      ensures me < |system.wrappers| && system.sets == old(system.sets) && WellFormed(system)
      ensures old(faulted) ==> faulted
      ensures var held := old(system).wrappers[me].held;
        match system.wrappers[me]
        case Releasing(still, Failed) =>
          (fails || faulted) && still == held && By(events, me) == By(old(events), me) + [Break(me)]
        case Releasing(still, Exited(code)) =>
          && !fails && still == held == |system.sets[me]|
          && By(events, me) == By(old(events), me) + [Launch(me), Exit(me, code)]
        case _ => false
    {
      hide By, Valid;
      var fault := fails;
      if !fault {
        fault := Faulty();
      }
      if fault {
        var before := Own(Break(me));
      } else {
        var before := Own(Launch(me));
        var code: int := *;
        before := Own(Exit(me, code));
      }
    }

    /** `run_claimed`: whatever the other wrappers do meanwhile, the child runs only with
      every claim locked, its exit code is passed on, a conflict at a claim gives back
      exactly the earlier ones, and nothing is held afterwards. A claim file or the
      child itself may fail to open, after `broken` locked claims. */
    method RunClaimed(me: nat) returns (outcome: Outcome, ghost broken: nat)
      requires Valid() && me < |system.wrappers| && system.wrappers[me] == Acquiring(0)
      modifies this
      ensures Valid() && origin == old(origin) && me < |system.wrappers|
      ensures system.wrappers[me] == Done(outcome)
      ensures outcome.Failed? ==> faulted
      ensures By(events, me) == By(old(events), me) + Script(me, |system.sets[me]|, outcome, broken)
      ensures broken <= |system.sets[me]| && (outcome.Conflict? ==> outcome.at < |system.sets[me]|)
      ensures forall c :: c in system.locks ==> system.locks[c] != me
    {
      faulted := false;
      ghost var own := By(events, me);
      var fails := Acquire(me);
      hide By, Valid, Step, Enabled, Script, Repeat, WellFormed;
      broken := 0;
      if system.wrappers[me].Acquiring? {
        broken := system.wrappers[me].held;
        RunChild(me, fails);
      }
      outcome := system.wrappers[me].outcome;
      ScriptFromParts(own, me, |system.sets[me]|, outcome, broken);
      GiveBack(me);
      ReturnedHoldsNothing(me);
    }

    lemma ReturnedHoldsNothing(me: nat)
      requires Valid() && me < |system.wrappers| && system.wrappers[me].Done?
      ensures forall c :: c in system.locks ==> system.locks[c] != me
    {
      NothingHeld(system, me);
    }
  }

  lemma NothingHeld(s: System, i: nat)
    requires SystemInv(s) && i < |s.wrappers| && s.wrappers[i].Done?
    ensures forall c :: c in s.locks ==> s.locks[c] != i
  {
    assert Held(s, i) == [];
  }
}
