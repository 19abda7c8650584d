/** SSH key generation and recovery as the source runs them, on a directory that is
  updated in place.  The ghost `log` keeps the operations performed so far a run of
  the protocol, so a kill after any of them is covered by what holds in every run. */
module SshKeyStore {
  import opened Wrappers
  import opened SshJournal
  import opened SshProtocol

  lemma {:induction false} PlayExtends(s: System, events: seq<Event>, e: Event)
    requires Play(s, events).Some?
    ensures Play(s, events + [e]) == Step(Play(s, events).value, e)
    decreases |events|
  {
    hide Step;
    if events == [] {
      assert ([] + [e])[1..] == [];
    } else {
      assert (events + [e])[1..] == events[1..] + [e];
      PlayExtends(Step(s, events[0]).value, events[1..], e);
    }
  }

  lemma CompletedIsResumable(d: Disk, j: Journal)
    requires d.journal == Some(j)
    requires InstallMove(d, j, PublicHalf) == Installed && InstallMove(d, j, PrivateHalf) == Installed
    requires Completion(d, j.op, j.kind) == Ok(true)
    ensures Resumable(d)
  {
  }

  lemma ResumeIsStep(s: System, a: Act, next: Disk)
    requires s.phase.Recovering? && Recover(s.disk, a) == Some(next)
    ensures Step(s, Resume(a)) == Some(s.(disk := next))
  {
    hide Recover;
  }

  /** The pair that a receipt records. */
  function PairOf(r: Receipt): Pair {
    Pair(Some(r.privateBytes), Some(r.publicBytes))
  }

  /** The decision, from the receipts, the visible pair and `force`, in this order. */
  lemma DecisionMeans(d: Disk, req: Request)
    ensures Decision(d, req) ==
      if req.op in d.receipts then
        Some(if d.receipts[req.op].kind != req.kind then Err(Reused)
             else if VisiblePair(d) != PairOf(d.receipts[req.op]) then Err(Superseded)
             else Ok(()))
      else if VisiblePair(d) != Pair(None, None) && !req.force then Some(Err(Exists))
      else None
  {
  }

  predicate SameHistory(s: System, s': System) {
    s'.commits == s.commits && s'.drawn == s.drawn && s'.origin == s.origin
  }

  /** The only transaction files are those that `_remove_ssh_transaction` unlinks. */
  predicate OnlyObsolete(d: Disk, t: Txn) {
    forall s: Slot :: s in d.files && Transactional(s) ==> s in Obsolete(t)
  }

  class SshKeyStore {
    var disk: Disk
    ghost var start: System
    ghost var log: seq<Event>
    ghost var now: System
    // Whether an operation of this call has failed.
    ghost var faulted: bool

    ghost predicate Valid()
      reads this
    {
      Play(start, log) == Some(now) && now.disk == disk
    }

    constructor (s: System)
      ensures Valid() && start == s && now == s && log == [] && disk == s.disk
    {
      disk := s.disk;
      start, log, now := s, [], s;
      faulted := false;
    }

    /** Whether the environment makes what follows fail. */
    method Faulty() returns (fault: bool)
      modifies `faulted
      ensures faulted == (old(faulted) || fault)
    {
      fault := *;
      faulted := faulted || fault;
    }

    /** One operation: the directory becomes `next`, which is what event `e` does. */
    method Perform(ghost e: Event, next: Disk)
      requires Valid()
      requires Step(now, e).Some? && Step(now, e).value.disk == next
      modifies `disk, `log, `now
      ensures Valid() && disk == next
      ensures log == old(log) + [e]
      ensures Some(now) == old(Step(now, e))
    {
      hide Step;
      PlayExtends(start, log, e);
      disk := next;
      log := log + [e];
      now := Step(now, e).value;
    }

    /** One operation of a recovery. */
    method Redo(ghost a: Act, next: Disk)
      requires Valid() && now.phase.Recovering?
      requires Recover(disk, a) == Some(next)
      modifies `disk, `log, `now
      ensures Valid() && disk == next
      ensures now == old(now).(disk := next)
      ensures Resumable(disk) <==> Resumable(old(disk))
      ensures Resumable(disk) ==> Recovered(disk) == Recovered(old(disk))
    {
      hide Recover, Resumable, Recovered, Remaining;
      ResumabilityIsInvariant(disk, a, next);
      if Resumable(disk) {
        RecoverStep(disk, a, next);
      }
      ResumeIsStep(now, a, next);
      hide Step;
      Perform(Resume(a), next);
    }

    /** `_install_transaction_file` (line 655). */
    method InstallTransactionFile(j: Journal, h: Half) returns (error: Option<Error>)
      requires Valid() && now.phase.Recovering? && disk.journal == Some(j)
      requires h.PrivateHalf? ==> InstallMove(disk, j, PublicHalf) == Installed
      modifies `disk, `log, `now
      ensures Valid() && now.phase == old(now.phase) && SameHistory(old(now), now)
      ensures disk.journal == Some(j) && disk.receipts == old(disk.receipts)
      ensures Resumable(disk) <==> Resumable(old(disk))
      ensures Resumable(disk) ==> Recovered(disk) == Recovered(old(disk))
      ensures OnlyObsolete(old(disk), j.txn) ==> OnlyObsolete(disk, j.txn)
      ensures InstallMove(disk, j, h) == if error.None? then Installed else Stuck(error.value)
      ensures h.PrivateHalf? ==> InstallMove(disk, j, PublicHalf) == Installed
    {
      hide Resumable, Recovered, Completion;
      if At(disk, Destination(h)) == Some(New(j, h)) {
        return None;
      }
      if At(disk, StageOf(h, j.txn)) != Some(New(j, h)) {
        return Some(StageUnavailable);
      }
      match Old(j, h) {
        case None =>
          if At(disk, Destination(h)).Some? {
            return Some(UnexpectedDestination);
          }
        case Some(previous) =>
          if At(disk, BackupOf(h, j.txn)).None? {
            if At(disk, Destination(h)) != Some(previous) {
              return Some(OldChanged);
            }
            Redo(Aside(h), Renamed(disk, Destination(h), BackupOf(h, j.txn)));
          } else if At(disk, BackupOf(h, j.txn)) != Some(previous) {
            return Some(BackupChanged);
          }
      }
      Redo(Install(h), Renamed(disk, StageOf(h, j.txn), Destination(h)));
      return None;
    }

    /** `_record_ssh_operation` (line 769). */
    method RecordOperation(j: Journal) returns (error: Option<Error>)
      requires Valid() && now.phase.Recovering? && disk.journal == Some(j)
      requires InstallMove(disk, j, PublicHalf) == Installed && InstallMove(disk, j, PrivateHalf) == Installed
      modifies `disk, `log, `now
      ensures Valid() && now.phase == old(now.phase) && SameHistory(old(now), now)
      ensures disk.journal == Some(j) && disk.files == old(disk.files)
      ensures Resumable(disk) <==> Resumable(old(disk))
      ensures Resumable(disk) ==> Recovered(disk) == Recovered(old(disk))
      ensures Completion(disk, j.op, j.kind) == if error.None? then Ok(true) else Err(error.value)
    {
      hide Resumable, Recovered;
      var completed := Completion(disk, j.op, j.kind);
      match completed {
        case Err(e) => return Some(e);
        case Ok(done) =>
          if !done {
            Redo(Record, disk.(receipts := disk.receipts[j.op := Receipt(j.kind, j.newPrivate, j.newPublic)]));
          }
          return None;
      }
    }

    lemma NextObsolete(slots: seq<Slot>, i: nat)
      requires i < |slots|
      requires forall k :: 0 <= k < i ==> slots[k] !in disk.files
      requires slots[i] in disk.files
      ensures FirstPresent(disk, slots) == Some(slots[i])
      decreases i
    {
      if i > 0 {
        NextObsolete(slots[1..], i - 1);
      }
    }

    lemma {:induction false} NoneObsolete(slots: seq<Slot>)
      requires forall k :: 0 <= k < |slots| ==> slots[k] !in disk.files
      ensures FirstPresent(disk, slots) == None
    {
      FirstPresentIsPresent(disk, slots);
    }

    /** `_remove_ssh_transaction` (line 711). */
    method RemoveTransaction(j: Journal)
      requires Valid() && now.phase.Recovering? && disk.journal == Some(j)
      requires InstallMove(disk, j, PublicHalf) == Installed && InstallMove(disk, j, PrivateHalf) == Installed
      requires Completion(disk, j.op, j.kind) == Ok(true)
      modifies `disk, `log, `now
      ensures Valid() && now.phase == old(now.phase) && SameHistory(old(now), now)
      ensures disk.journal.None? && disk.receipts == old(disk.receipts)
      ensures VisiblePair(disk) == old(VisiblePair(disk))
      ensures OnlyObsolete(old(disk), j.txn) ==> Quiescent(disk)
      ensures Resumable(old(disk)) ==> Resumable(disk) && Recovered(disk) == Recovered(old(disk))
    {
      hide Resumable, Recovered, FirstPresent;
      var slots := Obsolete(j.txn);
      for i := 0 to |slots|
        invariant Valid() && now.phase == old(now.phase) && SameHistory(old(now), now)
        invariant disk.journal == Some(j) && disk.receipts == old(disk.receipts)
        invariant VisiblePair(disk) == old(VisiblePair(disk))
        invariant OnlyObsolete(old(disk), j.txn) ==> OnlyObsolete(disk, j.txn)
        invariant Resumable(old(disk)) ==> Resumable(disk) && Recovered(disk) == Recovered(old(disk))
        invariant forall k :: 0 <= k < i ==> slots[k] !in disk.files
      {
        if slots[i] in disk.files {
          NextObsolete(slots, i);
          Redo(Unlink(slots[i]), disk.(files := disk.files - {slots[i]}));
        }
      }
      NoneObsolete(slots);
      Redo(UnlinkJournal, disk.(journal := None));
    }

    /** `_clean_orphaned_ssh_transaction_files` (line 816). */
    method CleanOrphans()
      requires Valid() && now.phase.Recovering? && disk.journal.None?
      modifies `disk, `log, `now
      ensures Valid() && now.phase == old(now.phase) && SameHistory(old(now), now)
      ensures Quiescent(disk) && disk == Recovered(old(disk))
    {
      var children := set s | s in disk.files && Transactional(s);
      while children != {}
        invariant Valid() && now.phase == old(now.phase) && SameHistory(old(now), now)
        invariant disk.journal.None?
        invariant Recovered(disk) == Recovered(old(disk))
        invariant forall s: Slot :: s in children <==> s in disk.files && Transactional(s)
        decreases children
      {
        var child :| child in children;
        Redo(Unlink(child), disk.(files := disk.files - {child}));
        children := children - {child};
      }
      RecoveryNeverStuck(disk);
    }

    /** An exception of a recovery: the plan has no next operation. */
    method Refused(j: Journal)
      requires Valid() && now.phase.Recovering? && disk.journal == Some(j)
      requires Planned(disk, j).Err?
      modifies `disk, `log, `now
      ensures Valid() && now.phase == Down && SameHistory(old(now), now) && disk == old(disk)
      ensures !Resumable(disk)
    {
      PlanFailsOnlyUnresumable(disk);
      hide Resumable;
      Perform(Refuse, disk);
    }

    /** A journal is finished: `_finish_ssh_key_transaction`, the receipt, and the
      removal of the transaction (lines 504 to 506 and 810 to 812). */
    method FinishTransaction(j: Journal) returns (error: Option<Error>)
      requires Valid() && now.phase.Recovering? && disk.journal == Some(j)
      modifies `disk, `log, `now
      ensures Valid() && SameHistory(old(now), now)
      ensures error.None? <==> Resumable(old(disk))
      ensures error.None? ==>
        && now.phase == old(now.phase)
        && disk.journal.None?
        && Recovered(disk) == Recovered(old(disk))
        && Completion(disk, j.op, j.kind) == Ok(true)
        && (OnlyObsolete(old(disk), j.txn) ==> Quiescent(disk))
      ensures error.Some? ==> now.phase == Down
    {
      hide Resumable, Recovered, Recover;
      error := InstallTransactionFile(j, PublicHalf);
      if error.None? {
        error := InstallTransactionFile(j, PrivateHalf);
      }
      if error.None? {
        error := RecordOperation(j);
      }
      if error.Some? {
        Refused(j);
        return;
      }
      CompletedIsResumable(disk, j);
      RemoveTransaction(j);
    }

    /** `recover_ssh_key_transaction` (line 803): succeeds exactly on resumable disks,
      and then leaves the recovered one. */
    method RecoverTransaction() returns (error: Option<Error>)
      requires Valid() && now.phase.Recovering?
      modifies `disk, `log, `now
      ensures Valid() && SameHistory(old(now), now)
      ensures error.None? <==> Resumable(old(disk))
      ensures error.None? ==> Quiescent(disk) && disk == Recovered(old(disk)) && now.phase == old(now.phase)
      ensures error.Some? ==> now.phase == Down
    {
      error := None;
      if disk.journal.Some? {
        var j := disk.journal.value;
        error := FinishTransaction(j);
        if error.Some? {
          return;
        }
      }
      hide Recovered, HalfResumable;
      CleanOrphans();
    }

    /** `ssh-keygen` and the stages (lines 470 to 494). */
    method PrepareStages(req: Request, t: Txn, privateBytes: Bytes, publicBytes: Bytes, suffix: nat)
      requires Valid() && now.phase == Preparing(req, t, Generating)
      requires Quiescent(disk)
      modifies `disk, `log, `now
      ensures Valid() && now.phase == Preparing(req, t, Journaling(suffix)) && SameHistory(old(now), now)
      ensures disk == old(disk).(files := old(disk.files)[PrivateStage(t) := privateBytes][PublicStage(t) := publicBytes]
                                                         [JournalTemporary(suffix) := ""])
    {
      Perform(Keygen(PrivateStage(t), privateBytes), disk.(files := disk.files[PrivateStage(t) := privateBytes]));
      Perform(Keygen(RawPublic(t), publicBytes), disk.(files := disk.files[RawPublic(t) := publicBytes]));
      Perform(StagePublic, Renamed(disk, RawPublic(t), PublicStage(t)));
      assert disk.files == old(disk.files)[PrivateStage(t) := privateBytes][PublicStage(t) := publicBytes];
      Perform(WriteJournal(suffix), disk.(files := disk.files[JournalTemporary(suffix) := ""]));
    }

    lemma HasInv()
      requires Valid() && SystemInv(start)
      ensures SystemInv(now)
    {
      hide SystemInv;
      ReachableInv(start, log, now);
    }

    lemma PlannedIsPossible(j: Journal)
      requires disk.journal == Some(j) && Planned(disk, j).Ok?
      ensures Recover(disk, Planned(disk, j).value).Some?
    {
    }

    /** An exception while a journal is being finished: some of the operations are done,
      in their order, and the rest is left to a recovery. */
    method BreakOff()
      requires Valid() && now.phase.Recovering? && Resumable(disk)
      modifies `disk, `log, `now
      ensures Valid() && now.phase == Down && SameHistory(old(now), now)
      ensures Resumable(disk) && Recovered(disk) == Recovered(old(disk))
    {
      hide Resumable, Recovered, Recover, Planned;
      var done: int := *;
      for k := 0 to if done < 0 then 0 else done
        invariant Valid() && now.phase.Recovering? && SameHistory(old(now), now)
        invariant Resumable(disk) && Recovered(disk) == Recovered(old(disk))
      {
        if disk.journal.Some? {
          var plan := Planned(disk, disk.journal.value);
          if plan.Ok? {
            PlannedIsPossible(disk.journal.value);
            Redo(plan.value, Recover(disk, plan.value).value);
          }
        }
      }
      Perform(Stop, disk);
    }

    /** The new pair, committed and installed (lines 470 to 507). */
    method ReplacePair(req: Request, t: Txn, privateBytes: Bytes, publicBytes: Bytes, suffix: nat)
      returns (result: Result<(), Error>)
      requires Valid() && SystemInv(start) && now.phase == Preparing(req, t, Generating)
      requires Quiescent(disk)
      modifies `disk, `log, `now, `faulted
      ensures Valid() && now.phase == Down
      ensures now.commits == old(now.commits)
           || now.commits == old(now.commits) + [Commit(req.op, req.kind, privateBytes, publicBytes)]
      ensures result.Ok? ==>
        && now.commits == old(now.commits) + [Commit(req.op, req.kind, privateBytes, publicBytes)]
        && Quiescent(disk) && Completion(disk, req.op, req.kind) == Ok(true)
      ensures result.Err? ==> result.error == Fault && faulted
    {
      hide SystemInv, Completion, Recover;
      PrepareStages(req, t, privateBytes, publicBytes, suffix);
      var fault := Faulty();
      if fault {
        Perform(Stop, disk);
        return Err(Fault);
      }
      var j := NewJournal(disk, req, t);
      Perform(PublishJournal, disk.(files := disk.files - {JournalTemporary(suffix)}, journal := Some(j)));
      assert OnlyObsolete(disk, t);
      HasInv();
      assert Resumable(disk) by { InvIsResumable(now); }
      hide Step, Resumable;
      fault := Faulty();
      if fault {
        BreakOff();
        return Err(Fault);
      }
      var error := FinishTransaction(j);
      Finished();
      return Ok(());
    }

    /** The lock is given back by a process that has nothing left to recover. */
    method Finished()
      requires Valid() && now.phase == Recovering(None) && Quiescent(disk)
      modifies `disk, `log, `now
      ensures Valid() && now.phase == Down && SameHistory(old(now), now) && disk == old(disk)
    {
      Perform(Settle, disk);
    }

    /** After recovery: the receipt and the existing files decide (lines 463 to 471). */
    method Decided(req: Request, t: Txn) returns (decision: Option<Result<(), Error>>)
      requires Valid() && now.phase == Recovering(Some(req)) && Quiescent(disk) && t !in now.drawn
      modifies `disk, `log, `now
      ensures Valid() && disk == old(disk) && now.commits == old(now.commits)
      ensures decision == Decision(disk, req)
      ensures now.phase == if decision.Some? then Down else Preparing(req, t, Generating)
    {
      hide Recover;
      Perform(Settle, disk);
      decision := Decision(disk, req);
      Perform(Decide(t), disk);
    }

    method Begin(req: Request)
      requires Valid() && now.phase.Down?
      modifies `disk, `log, `now
      ensures Valid() && now == old(now).(phase := Recovering(Some(req))) && disk == old(disk)
    {
      Perform(Start(Some(req)), disk);
    }

    /** `generate_ssh_key` while it holds the lock (line 450). */
    method GenerateSshKey(req: Request, t: Txn, privateBytes: Bytes, publicBytes: Bytes, suffix: nat)
      returns (result: Result<(), Error>)
      requires Valid() && SystemInv(start) && now.phase.Down? && t !in now.drawn
      modifies `disk, `log, `now, `faulted
      ensures Valid() && now.phase == Down
      ensures now.commits == old(now.commits)
           || now.commits == old(now.commits) + [Commit(req.op, req.kind, privateBytes, publicBytes)]
      ensures VisiblePair(Recovered(disk)) == InForce(now)
      ensures result.Ok? ==>
        && Quiescent(disk) && VisiblePair(disk) == InForce(now)
        && Completion(disk, req.op, req.kind) == Ok(true)
      ensures result.Err? && result.error != Fault ==>
        && now.commits == old(now.commits)
        && VisiblePair(disk) == InForce(now)
      // What the receipts, the pair in force and `force` decide, in this order.
      ensures var receipts := Recovered(old(disk)).receipts;
        if req.op in receipts then
          && now.commits == old(now.commits)
          && result == if receipts[req.op].kind != req.kind then Err(Reused)
                       else if old(InForce(now)) != PairOf(receipts[req.op]) then Err(Superseded)
                       else Ok(())
        else if old(InForce(now)) != Pair(None, None) && !req.force then
          now.commits == old(now.commits) && result == Err(Exists)
        else
          result.Ok? || (result == Err(Fault) && faulted)
      ensures result.Ok? && req.op !in Recovered(old(disk)).receipts ==>
        now.commits == old(now.commits) + [Commit(req.op, req.kind, privateBytes, publicBytes)]
    {
      HasInv();
      InvIsResumable(now);
      hide SystemInv, Completion, Recover, Resumable, Recovered, Decision, VisiblePair, InForce;
      ghost var before := now;
      faulted := false;
      Begin(req);
      var failed := RecoverTransaction();
      HasInv();
      InvIsWhole(now);
      InForceFrame(before, now);
      DecisionMeans(disk, req);
      var decision := Decided(req, t);
      HasInv();
      InvIsWhole(now);
      RecoveredPair(now);
      if decision.Some? {
        return decision.value;
      }
      result := ReplacePair(req, t, privateBytes, publicBytes, suffix);
      HasInv();
      InvIsWhole(now);
      RecoveredPair(now);
    }
  }

  lemma InvIsResumable(s: System)
    requires SystemInv(s)
    ensures Resumable(s.disk)
  {
    hide Ledger, InForce, Prepared;
  }

  lemma InvIsWhole(s: System)
    requires SystemInv(s)
    ensures s.disk.journal.None? ==> VisiblePair(s.disk) == InForce(s)
  {
    hide Ledger, InForce, Prepared, Resumable;
  }
}
