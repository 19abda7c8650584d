/** Generations, kills and recoveries of the SSH key pair, over any history.

  Every process that touches these files holds the exclusive instance lock, so at
  most one is alive; any of them first recovers what the previous one left. */
module SshProtocol {
  import opened Wrappers
  import opened SshJournal

  /** The arguments of one `generate_ssh_key` call. */
  datatype Request = Request(op: OpId, kind: Kind, force: bool)

  /** Progress of a new pair before its journal is published. */
  datatype Point = Generating | Staged | Journaling(suffix: nat)

  datatype Phase =
    | Down
    // Recovering first, then going on with a request if there is one.
    | Recovering(next: Option<Request>)
    | Deciding(req: Request)
    | Preparing(req: Request, txn: Txn, point: Point)

  datatype Pair = Pair(privateBytes: Option<Bytes>, publicBytes: Option<Bytes>)

  /** A published journal: the operation and the pair it commits to. */
  datatype Commit = Commit(op: OpId, kind: Kind, privateBytes: Bytes, publicBytes: Bytes)

  datatype System = System(
    disk: Disk,
    phase: Phase,
    // History: transaction names ever drawn, the pair at the start, commits in order.
    drawn: set<Txn>,
    origin: Pair,
    commits: seq<Commit>)

  datatype Event =
    | Start(next: Option<Request>)
    | Resume(act: Act)
    | Settle
    | Refuse
    | Decide(txn: Txn)
    | Keygen(slot: Slot, bytes: Bytes)
    | StagePublic
    | WriteJournal(suffix: nat)
    | PublishJournal
    | Stop

  function VisiblePair(d: Disk): Pair {
    Pair(At(d, Identity), At(d, Public))
  }

  /** What `generate_ssh_key` does when recovery is complete (lines 464 to 468): the
    value it returns or the error it raises, or None when it generates a pair. */
  function Decision(d: Disk, req: Request): Option<Result<(), Error>> {
    match Completion(d, req.op, req.kind)
    case Err(error) => Some(Err(error))
    case Ok(true) => Some(Ok(()))
    case Ok(false) =>
      if (Identity in d.files || Public in d.files) && !req.force then Some(Err(Exists)) else None
  }

  function NewJournal(d: Disk, req: Request, t: Txn): Journal
    requires PrivateStage(t) in d.files && PublicStage(t) in d.files
  {
    Journal(t, req.op, req.kind, At(d, Identity), At(d, Public), d.files[PrivateStage(t)], d.files[PublicStage(t)])
  }

  /** One step, or None when the event cannot happen.  `Stop` is a kill, or any
    exception: either way the lock is gone and the files stay as they are. */
  function Step(s: System, e: Event): Option<System> {
    match e
    case Start(next) =>
      if s.phase.Down? then Some(s.(phase := Recovering(next))) else None
    case Resume(a) =>
      if s.phase.Recovering? && Recover(s.disk, a).Some?
      then Some(s.(disk := Recover(s.disk, a).value))
      else None
    case Settle =>
      if s.phase.Recovering? && Quiescent(s.disk)
      then Some(s.(phase := if s.phase.next.None? then Down else Deciding(s.phase.next.value)))
      else None
    case Refuse =>
      if s.phase.Recovering? && s.disk.journal.Some? && Planned(s.disk, s.disk.journal.value).Err?
      then Some(s.(phase := Down))
      else None
    case Decide(t) =>
      if !s.phase.Deciding? || t in s.drawn then None
      else if Decision(s.disk, s.phase.req).Some? then Some(s.(phase := Down))
      else Some(s.(phase := Preparing(s.phase.req, t, Generating), drawn := s.drawn + {t}))
    case Keygen(slot, bytes) =>
      // ssh-keygen may be killed after writing any part of either file.
      if s.phase.Preparing? && s.phase.point.Generating?
         && (slot == PrivateStage(s.phase.txn) || slot == RawPublic(s.phase.txn))
      then Some(s.(disk := s.disk.(files := s.disk.files[slot := bytes])))
      else None
    case StagePublic =>
      if s.phase.Preparing? && s.phase.point.Generating?
         && PrivateStage(s.phase.txn) in s.disk.files && RawPublic(s.phase.txn) in s.disk.files
      then Some(s.(disk := Renamed(s.disk, RawPublic(s.phase.txn), PublicStage(s.phase.txn)),
                   phase := s.phase.(point := Staged)))
      else None
    case WriteJournal(n) =>
      if s.phase.Preparing? && s.phase.point.Staged?
      then Some(s.(disk := s.disk.(files := s.disk.files[JournalTemporary(n) := ""]),
                   phase := s.phase.(point := Journaling(n))))
      else None
    case PublishJournal =>
      if s.phase.Preparing? && s.phase.point.Journaling?
         && PrivateStage(s.phase.txn) in s.disk.files && PublicStage(s.phase.txn) in s.disk.files
      then
        var j := NewJournal(s.disk, s.phase.req, s.phase.txn);
        Some(s.(disk := s.disk.(files := s.disk.files - {JournalTemporary(s.phase.point.suffix)}, journal := Some(j)),
                phase := Recovering(None),
                commits := s.commits + [Commit(j.op, j.kind, j.newPrivate, j.newPublic)]))
      else None
    case Stop => Some(s.(phase := Down))
  }

  function Play(s: System, events: seq<Event>): Option<System>
    decreases |events|
  {
    if events == [] then Some(s)
    else
      var next := Step(s, events[0]);
      if next.None? then None else Play(next.value, events[1..])
  }

  /** No transaction and no receipt yet; any pair, or half of one, and any leftovers may
    be there. */
  ghost predicate Initial(s: System) {
    && s.phase.Down? && s.disk.journal.None? && s.disk.receipts == map[]
    && s.commits == [] && s.origin == VisiblePair(s.disk)
  }

  /** The pair in force: the latest committed one, or the one at the start. */
  function InForce(s: System): Pair {
    if s.commits == [] then s.origin
    else var last := s.commits[|s.commits| - 1];
      Pair(Some(last.privateBytes), Some(last.publicBytes))
  }

  function InForceBefore(s: System): Pair
    requires s.commits != []
  {
    InForce(s.(commits := s.commits[..|s.commits| - 1]))
  }

  predicate JournalMatches(s: System, j: Journal) {
    && s.commits != []
    && s.commits[|s.commits| - 1] == Commit(j.op, j.kind, j.newPrivate, j.newPublic)
    && InForceBefore(s) == Pair(j.oldPrivate, j.oldPublic)
  }

  function ReceiptOf(c: Commit): Receipt {
    Receipt(c.kind, c.privateBytes, c.publicBytes)
  }

  /** Every commit is receipted, except the one whose journal is still there. */
  ghost predicate Receipted(commits: seq<Commit>, receipts: map<OpId, Receipt>, pending: bool) {
    forall i :: 0 <= i < |commits| ==>
      || (commits[i].op in receipts && receipts[commits[i].op] == ReceiptOf(commits[i]))
      || (pending && i == |commits| - 1 && commits[i].op !in receipts)
  }

  /** Commits belong to different operations. */
  ghost predicate Distinct(commits: seq<Commit>) {
    forall i, k :: 0 <= i < k < |commits| ==> commits[i].op != commits[k].op
  }

  /** Every receipt belongs to a commit. */
  ghost predicate Accounted(commits: seq<Commit>, receipts: map<OpId, Receipt>) {
    forall op :: op in receipts ==> exists i :: 0 <= i < |commits| && commits[i].op == op
  }

  ghost predicate Ledger(s: System) {
    && Receipted(s.commits, s.disk.receipts, s.disk.journal.Some?)
    && Distinct(s.commits)
    && Accounted(s.commits, s.disk.receipts)
  }

  ghost predicate Prepared(s: System) {
    s.phase.Preparing? ==>
      var t := s.phase.txn;
      && s.disk.journal.None?
      && s.phase.req.op !in s.disk.receipts
      && (!s.phase.req.force ==> VisiblePair(s.disk) == Pair(None, None))
      && (forall x: Slot :: x in s.disk.files && Transactional(x) ==>
            x == PrivateStage(t) || x == RawPublic(t) || x == PublicStage(t) || x.JournalTemporary?)
      && (!s.phase.point.Generating? ==> PrivateStage(t) in s.disk.files && PublicStage(t) in s.disk.files)
  }

  ghost predicate SystemInv(s: System) {
    && Resumable(s.disk)
    && (s.disk.journal.None? ==> VisiblePair(s.disk) == InForce(s))
    && (s.disk.journal.Some? ==> JournalMatches(s, s.disk.journal.value))
    && Ledger(s)
    && Prepared(s)
    && (s.phase.Deciding? ==> Quiescent(s.disk))
  }

  lemma InitialInv(s: System)
    requires Initial(s)
    ensures SystemInv(s)
  {
  }

  lemma ResumeFrame(d: Disk, a: Act, d': Disk)
    requires Resumable(d)
    requires Recover(d, a) == Some(d')
    ensures d.journal.None? ==> VisiblePair(d') == VisiblePair(d) && d'.receipts == d.receipts && d'.journal.None?
    ensures d.journal.Some? && d'.journal.Some? ==> d'.journal == d.journal
    ensures d.journal.Some? ==>
      var j := d.journal.value;
      || d'.receipts == d.receipts
      || (j.op !in d.receipts && d'.receipts == d.receipts[j.op := Receipt(j.kind, j.newPrivate, j.newPublic)])
    ensures d.journal.Some? && d'.journal.None? ==>
      var j := d.journal.value;
      && VisiblePair(d') == Pair(Some(j.newPrivate), Some(j.newPublic))
      && j.op in d'.receipts && d'.receipts == d.receipts
  {
  }

  lemma LedgerRecords(s: System, s': System)
    requires Ledger(s) && s.commits != [] && s'.commits == s.commits
    requires s.disk.journal.Some?
    requires var last := s.commits[|s.commits| - 1];
      || s'.disk.receipts == s.disk.receipts
      || (last.op !in s.disk.receipts && s'.disk.receipts == s.disk.receipts[last.op := ReceiptOf(last)])
    requires s'.disk.journal.None? ==> s.commits[|s.commits| - 1].op in s'.disk.receipts
    ensures Ledger(s')
  {
  }

  lemma ResumeKeepsInv(s: System, a: Act, s': System)
    requires SystemInv(s)
    requires Step(s, Resume(a)) == Some(s')
    ensures SystemInv(s')
  {
    RecoverStep(s.disk, a, s'.disk);
    ResumeFrame(s.disk, a, s'.disk);
    hide Recover, Resumable, Recovered, Remaining;
    if s.disk.journal.Some? {
      LedgerRecords(s, s');
    }
    hide Receipted, Distinct, Accounted;
  }

  lemma LedgerCommits(s: System, s': System, c: Commit)
    requires Ledger(s) && s.disk.journal.None?
    requires s'.commits == s.commits + [c] && s'.disk.receipts == s.disk.receipts
    requires s'.disk.journal.Some? && c.op !in s.disk.receipts
    ensures Ledger(s')
  {
    forall op | op in s'.disk.receipts ensures exists i :: 0 <= i < |s'.commits| && s'.commits[i].op == op {
      var i :| 0 <= i < |s.commits| && s.commits[i].op == op;
      assert s'.commits[i] == s.commits[i];
    }
  }

  /** The journal is published over an untouched pair and complete stages. */
  lemma PublishedIsResumable(s: System, s': System)
    requires Prepared(s) && s.phase.Preparing?
    requires Step(s, PublishJournal) == Some(s')
    ensures Resumable(s'.disk)
  {
    hide InForce, Ledger;
    var t := s.phase.txn;
    assert PrivateBackup(t) !in s'.disk.files && PublicBackup(t) !in s'.disk.files;
  }

  lemma PublishKeepsInv(s: System, s': System)
    requires SystemInv(s)
    requires Step(s, PublishJournal) == Some(s')
    ensures SystemInv(s')
  {
    PublishedIsResumable(s, s');
    hide Resumable;
    LedgerCommits(s, s', s'.commits[|s.commits|]);
    hide Ledger;
    assert s'.commits[..|s'.commits| - 1] == s.commits;
    InForceFrame(s, s'.(commits := s.commits));
    assert InForceBefore(s') == InForce(s);
    hide InForce, InForceBefore;
  }

  /** Steps of a new pair before its journal, and steps that touch no file. */
  lemma OtherKeepsInv(s: System, e: Event, s': System)
    requires SystemInv(s)
    requires !e.Resume? && !e.PublishJournal?
    requires Step(s, e) == Some(s')
    ensures SystemInv(s')
  {
    hide Recover, HalfResumable, InstallMove, Planned, Receipted, Distinct, Accounted, InForce;
    assert s'.commits == s.commits && s'.disk.receipts == s.disk.receipts && s'.disk.journal == s.disk.journal;
    assert VisiblePair(s'.disk) == VisiblePair(s.disk);
    assert InForce(s') == InForce(s) by { InForceFrame(s, s'); }
    assert s.commits != [] ==> InForceBefore(s') == InForceBefore(s) by {
      if s.commits != [] {
        InForceFrame(s.(commits := s.commits[..|s.commits| - 1]), s'.(commits := s.commits[..|s.commits| - 1]));
      }
    }
  }

  lemma InForceFrame(s: System, s': System)
    requires s'.commits == s.commits && s'.origin == s.origin
    ensures InForce(s') == InForce(s)
  {
  }

  lemma StepKeepsInv(s: System, e: Event, s': System)
    requires SystemInv(s)
    requires Step(s, e) == Some(s')
    ensures SystemInv(s')
  {
    hide SystemInv, Step;
    match e
    case Resume(a) => ResumeKeepsInv(s, a, s');
    case PublishJournal => PublishKeepsInv(s, s');
    case _ => OtherKeepsInv(s, e, s');
  }

  lemma {:induction false} ReachableInv(s: System, events: seq<Event>, s': System)
    requires SystemInv(s)
    requires Play(s, events) == Some(s')
    ensures SystemInv(s')
    decreases |events|
  {
    hide SystemInv, Step;
    if events != [] {
      StepKeepsInv(s, events[0], Step(s, events[0]).value);
      ReachableInv(Step(s, events[0]).value, events[1..], s');
    }
  }

  /** At every moment a complete recovery would leave the pair in force. */
  lemma RecoveredPair(s: System)
    requires SystemInv(s)
    ensures VisiblePair(Recovered(s.disk)) == InForce(s)
  {
    hide Resumable, Ledger, Prepared;
  }
}
