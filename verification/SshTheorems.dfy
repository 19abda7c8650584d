/** What holds of the SSH key pair in every history of generations, kills at any
  operation, and recoveries that may themselves be killed. */
module SshTheorems {
  import opened Wrappers
  import opened SshJournal
  import opened SshProtocol

  ghost predicate Reachable(s0: System, events: seq<Event>, s: System) {
    Initial(s0) && Play(s0, events) == Some(s)
  }

  lemma ReachableHasInv(s0: System, events: seq<Event>, s: System)
    requires Reachable(s0, events, s)
    ensures SystemInv(s)
  {
    InitialInv(s0);
    hide SystemInv, Initial;
    ReachableInv(s0, events, s);
  }

  /** Whenever no journal exists the visible pair is wholly the pair in force: both
    files of the latest published journal, or both as they were at the start. */
  lemma {:induction false} PairIsWholeWithoutJournal(s0: System, events: seq<Event>, s: System)
    requires Reachable(s0, events, s)
    requires s.disk.journal.None?
    ensures VisiblePair(s.disk) == InForce(s)
  {
    ReachableHasInv(s0, events, s);
    hide InForce, Reachable;
  }

  /** The pair in force changes only when a journal is published, and then to the two
    staged files, while the visible pair is still the previous one. From then on every
    recovery, complete or not, is on the way to the new pair. */
  lemma {:induction false} JournalIsTheCommitPoint(s0: System, events: seq<Event>, s: System, e: Event, s': System)
    requires Reachable(s0, events, s)
    requires Step(s, e) == Some(s')
    ensures !e.PublishJournal? ==> InForce(s') == InForce(s) && s'.commits == s.commits
    ensures e.PublishJournal? ==>
      && InForce(s') == Pair(At(s.disk, PrivateStage(s.phase.txn)), At(s.disk, PublicStage(s.phase.txn)))
      && VisiblePair(s'.disk) == InForce(s)
    ensures VisiblePair(Recovered(s'.disk)) == InForce(s')
  {
    ReachableHasInv(s0, events, s);
    hide Step, Reachable, SystemInv;
    StepKeepsInv(s, e, s');
    RecoveredPair(s');
    if e.PublishJournal? {
      PublicationCommits(s, s');
    } else {
      OthersDoNotCommit(s, e, s');
    }
  }

  lemma PublicationCommits(s: System, s': System)
    requires SystemInv(s)
    requires Step(s, PublishJournal) == Some(s')
    ensures InForce(s') == Pair(At(s.disk, PrivateStage(s.phase.txn)), At(s.disk, PublicStage(s.phase.txn)))
    ensures VisiblePair(s'.disk) == InForce(s)
  {
    hide Resumable, Ledger;
  }

  lemma OthersDoNotCommit(s: System, e: Event, s': System)
    requires !e.PublishJournal? && Step(s, e) == Some(s')
    ensures InForce(s') == InForce(s) && s'.commits == s.commits
  {
    hide Recover, InForce;
    InForceFrame(s, s');
  }

  /** Without force, a pair is committed only where there was none, not even half of one. */
  lemma {:induction false} NothingIsReplacedWithoutForce(s0: System, events: seq<Event>, s: System, s': System)
    requires Reachable(s0, events, s)
    requires Step(s, PublishJournal) == Some(s')
    ensures !s.phase.req.force ==> InForce(s) == Pair(None, None)
    ensures s.phase.req.op !in s.disk.receipts
  {
    ReachableHasInv(s0, events, s);
    hide Reachable, Resumable, Ledger;
  }

  /** A recovery never meets a disk it cannot resume. */
  lemma {:induction false} RecoveryNeverRefuses(s0: System, events: seq<Event>, s: System)
    requires Reachable(s0, events, s)
    ensures Step(s, Refuse).None?
    ensures s.phase.Recovering? && !Quiescent(s.disk) ==> exists a :: Step(s, Resume(a)).Some?
  {
    ReachableHasInv(s0, events, s);
    RecoveryNeverStuck(s.disk);
    hide Reachable, Recover, Planned, Resumable, InForce, Ledger;
    if s.phase.Recovering? && !Quiescent(s.disk) {
      var a :| Recover(s.disk, a).Some?;
      assert Step(s, Resume(a)).Some?;
    }
  }

  /** When a recovery is complete: the pair is the one in force, no journal, stage or
    backup is left, and the receipt of every committed operation is recorded. */
  lemma {:induction false} CompleteRecoveryOutcome(s0: System, events: seq<Event>, s: System)
    requires Reachable(s0, events, s)
    requires s.phase.Recovering? && Step(s, Settle).Some?
    ensures VisiblePair(s.disk) == InForce(s)
    ensures s.disk.journal.None?
    ensures forall x: Slot :: x in s.disk.files ==> x.Identity? || x.Public? || x.Unrelated?
    ensures forall i :: 0 <= i < |s.commits| ==>
      s.commits[i].op in s.disk.receipts && s.disk.receipts[s.commits[i].op] == ReceiptOf(s.commits[i])
  {
    ReachableHasInv(s0, events, s);
    hide InForce, Reachable, Resumable;
  }

  /** The new bytes are in one of these places, and the old ones, if there were any, in
    place or in the backup until the new ones have replaced them. */
  ghost predicate Safe(d: Disk, place: Slot, stage: Slot, backup: Slot, previous: Option<Bytes>, next: Bytes) {
    && (At(d, place) == Some(next) || At(d, stage) == Some(next))
    && (previous.None? || At(d, place) == Some(next) || At(d, place) == previous || At(d, backup) == previous)
  }

  /** While a journal exists, no key is lost: both new files are at their destination or
    stage, and each old file is at its destination or backup until the new one replaced
    it. */
  lemma {:induction false} KeyMaterialIsKept(s0: System, events: seq<Event>, s: System)
    requires Reachable(s0, events, s)
    requires s.disk.journal.Some?
    ensures var j := s.disk.journal.value;
      && Safe(s.disk, Identity, PrivateStage(j.txn), PrivateBackup(j.txn), j.oldPrivate, j.newPrivate)
      && Safe(s.disk, Public, PublicStage(j.txn), PublicBackup(j.txn), j.oldPublic, j.newPublic)
    ensures var j := s.disk.journal.value;
      && s.commits != []
      && InForce(s) == Pair(Some(j.newPrivate), Some(j.newPublic))
      && InForceBefore(s) == Pair(j.oldPrivate, j.oldPublic)
  {
    ReachableHasInv(s0, events, s);
    hide Reachable, Ledger, Prepared;
  }

  /** What lies beside the keys is never touched. */
  lemma {:induction false} UnrelatedFilesStay(s: System, e: Event, s': System, name: string)
    requires Step(s, e) == Some(s')
    ensures At(s'.disk, Unrelated(name)) == At(s.disk, Unrelated(name))
  {
    hide Decision, Completion;
    if e.Resume? && s.disk.journal.Some? && e.act.Unlink? {
      var t := s.disk.journal.value.txn;
      FirstPresentIsPresent(s.disk, Obsolete(t));
      hide InstallMove, FirstPresent;
    }
  }

  /** The private key is installed last: while it is in place and new, so is the public
    one. */
  ghost predicate PrivateLast(s: System) {
    s.disk.journal.Some? ==>
      var j := s.disk.journal.value;
      At(s.disk, Identity) == Some(j.newPrivate) ==>
        At(s.disk, Public) == Some(j.newPublic) || j.oldPrivate == Some(j.newPrivate)
  }

  lemma StepKeepsPrivateLast(s: System, e: Event, s': System)
    requires PrivateLast(s) && Step(s, e) == Some(s')
    ensures PrivateLast(s')
  {
    hide Decision, Completion;
    if e.Resume? && s.disk.journal.Some? && e.act.Unlink? {
      FirstPresentIsPresent(s.disk, Obsolete(s.disk.journal.value.txn));
      hide FirstPresent;
    }
  }

  lemma {:induction false} PrivateKeyComesLast(s0: System, events: seq<Event>, s: System)
    requires PrivateLast(s0) && Play(s0, events) == Some(s)
    ensures PrivateLast(s)
    decreases |events|
  {
    hide Step, PrivateLast;
    if events != [] {
      StepKeepsPrivateLast(s0, events[0], Step(s0, events[0]).value);
      PrivateKeyComesLast(Step(s0, events[0]).value, events[1..], s);
    }
  }

  /** One operation ID generates at most one pair, over any retries and kills. */
  lemma {:induction false} OperationsCommitOnce(s0: System, events: seq<Event>, s: System, i: nat, k: nat)
    requires Reachable(s0, events, s)
    requires i < k < |s.commits|
    ensures s.commits[i].op != s.commits[k].op
    ensures s.phase.Preparing? ==> s.phase.req.op != s.commits[i].op
  {
    ReachableHasInv(s0, events, s);
    hide Reachable, InForce, Resumable;
  }

  /** Events of processes that only recover, and of kills. */
  predicate RecoveryOnly(e: Event) {
    e.Resume? || e.Settle? || e.Refuse? || e.Stop? || (e.Start? && e.next.None?)
  }

  function Resumes(events: seq<Event>): nat {
    if events == [] then 0 else (if events[0].Resume? then 1 else 0) + Resumes(events[1..])
  }

  /** Recoveries that are killed and restarted any number of times work towards one
    result, in a bounded number of operations altogether. */
  lemma {:induction false} InterruptedRecoveriesConverge(s: System, events: seq<Event>, s': System)
    requires Resumable(s.disk)
    requires forall i :: 0 <= i < |events| ==> RecoveryOnly(events[i])
    requires Play(s, events) == Some(s')
    ensures Recovered(s'.disk) == Recovered(s.disk)
    ensures Resumes(events) + Remaining(s'.disk) <= Remaining(s.disk)
    ensures Quiescent(s'.disk) <==> s'.disk == Recovered(s.disk)
    decreases |events|
  {
    hide Resumable, Recovered, Remaining, Recover, Planned, Quiescent;
    if events == [] {
      RecoveryNeverStuck(s.disk);
    } else {
      var e := events[0];
      assert RecoveryOnly(e);
      var next := Step(s, e).value;
      if e.Resume? {
        RecoverStep(s.disk, e.act, next.disk);
      } else {
        assert next.disk == s.disk;
      }
      forall i | 0 <= i < |events[1..]| ensures RecoveryOnly(events[1..][i]) {
        assert events[1..][i] == events[i + 1];
      }
      InterruptedRecoveriesConverge(next, events[1..], s');
    }
  }
}
