/** The SSH key-pair replacement journal of src/shuttle_gate/keys.py.

  Digests are injective here: a recorded digest is the content itself.  A file is
  replaced through a stage and a backup beside it; the journal file decides whether
  the replacement happens at all. */
module SshJournal {
  import opened Wrappers

  type Bytes = string
  type Txn = nat

  /** Names in the directory of the identity file. */
  datatype Slot =
    | Identity
    | Public
    | PrivateStage(txn: Txn)
    | PublicStage(txn: Txn)
    | PrivateBackup(txn: Txn)
    | PublicBackup(txn: Txn)
    | RawPublic(txn: Txn)             // what ssh-keygen writes beside the private stage
    | JournalTemporary(suffix: nat)   // the journal while it is being written
    | Unrelated(name: string)

  /** The two files of a key pair. */
  datatype Half = PrivateHalf | PublicHalf

  datatype Journal = Journal(
    txn: Txn,
    op: OpId,
    kind: Kind,
    oldPrivate: Option<Bytes>,
    oldPublic: Option<Bytes>,
    newPrivate: Bytes,
    newPublic: Bytes)

  datatype Receipt = Receipt(kind: Kind, privateBytes: Bytes, publicBytes: Bytes)

  datatype Disk = Disk(
    files: map<Slot, Bytes>,
    journal: Option<Journal>,
    receipts: map<OpId, Receipt>)

  datatype Error =
    | StageUnavailable
    | UnexpectedDestination
    | OldChanged
    | BackupChanged
    | Reused
    | Superseded
    | Exists
    | Fault

  /** Names the orphan sweep removes: everything a transaction creates. */
  predicate Transactional(s: Slot) {
    s.PrivateStage? || s.PublicStage? || s.PrivateBackup? || s.PublicBackup? || s.RawPublic? || s.JournalTemporary?
  }

  function Destination(h: Half): Slot {
    if h.PrivateHalf? then Identity else Public
  }

  function StageOf(h: Half, t: Txn): Slot {
    if h.PrivateHalf? then PrivateStage(t) else PublicStage(t)
  }

  function BackupOf(h: Half, t: Txn): Slot {
    if h.PrivateHalf? then PrivateBackup(t) else PublicBackup(t)
  }

  function Old(j: Journal, h: Half): Option<Bytes> {
    if h.PrivateHalf? then j.oldPrivate else j.oldPublic
  }

  function New(j: Journal, h: Half): Bytes {
    if h.PrivateHalf? then j.newPrivate else j.newPublic
  }

  function At(d: Disk, s: Slot): Option<Bytes> {
    if s in d.files then Some(d.files[s]) else None
  }

  // ---------------------------------------------------------------- recovery

  datatype Move = Installed | MoveAside | MoveIn | Stuck(error: Error)

  /** What `_install_transaction_file` does next for one file (line 655). */
  function InstallMove(d: Disk, j: Journal, h: Half): Move {
    if At(d, Destination(h)) == Some(New(j, h)) then Installed
    else if At(d, StageOf(h, j.txn)) != Some(New(j, h)) then Stuck(StageUnavailable)
    else match Old(j, h)
      case None =>
        if At(d, Destination(h)).Some? then Stuck(UnexpectedDestination) else MoveIn
      case Some(previous) =>
        if At(d, BackupOf(h, j.txn)).None? then
          if At(d, Destination(h)) != Some(previous) then Stuck(OldChanged) else MoveAside
        else if At(d, BackupOf(h, j.txn)) != Some(previous) then Stuck(BackupChanged)
        else MoveIn
  }

  /** `_ssh_operation_completed` against the present files (line 728). */
  function Completion(d: Disk, op: OpId, kind: Kind): Result<bool, Error> {
    if op !in d.receipts then Ok(false)
    else if d.receipts[op].kind != kind then Err(Reused)
    else if At(d, Identity) != Some(d.receipts[op].privateBytes)
         || At(d, Public) != Some(d.receipts[op].publicBytes) then Err(Superseded)
    else Ok(true)
  }

  datatype Act =
    | Aside(half: Half)
    | Install(half: Half)
    | Record
    | Unlink(slot: Slot)
    | UnlinkJournal

  /** The order of `_remove_ssh_transaction` (line 711). */
  function Obsolete(t: Txn): seq<Slot> {
    [PrivateStage(t), PublicStage(t), PrivateBackup(t), PublicBackup(t)]
  }

  /** The first of these names that exists. */
  function FirstPresent(d: Disk, slots: seq<Slot>): Option<Slot> {
    if slots == [] then None
    else if slots[0] in d.files then Some(slots[0])
    else FirstPresent(d, slots[1..])
  }

  /** The next operation of a recovery with a journal, from the disk alone. */
  function Planned(d: Disk, j: Journal): Result<Act, Error> {
    match InstallMove(d, j, PublicHalf)
    case MoveAside => Ok(Aside(PublicHalf))
    case MoveIn => Ok(Install(PublicHalf))
    case Stuck(error) => Err(error)
    case Installed =>
      match InstallMove(d, j, PrivateHalf)
      case MoveAside => Ok(Aside(PrivateHalf))
      case MoveIn => Ok(Install(PrivateHalf))
      case Stuck(error) => Err(error)
      case Installed =>
        match Completion(d, j.op, j.kind)
        case Err(error) => Err(error)
        case Ok(false) => Ok(Record)
        case Ok(true) =>
          match FirstPresent(d, Obsolete(j.txn))
          case Some(slot) => Ok(Unlink(slot))
          case None => Ok(UnlinkJournal)
  }

  /** `os.replace` within the directory. */
  function Renamed(d: Disk, source: Slot, target: Slot): Disk
    requires source in d.files
  {
    d.(files := (d.files - {source})[target := d.files[source]])
  }

  /** One recovery operation, or None when a recovery does not do it on this disk.
    Without a journal, leftovers go in any order. */
  function Recover(d: Disk, a: Act): Option<Disk> {
    match d.journal
    case None =>
      if a.Unlink? && Transactional(a.slot) && a.slot in d.files
      then Some(d.(files := d.files - {a.slot}))
      else None
    case Some(j) =>
      if Planned(d, j) != Ok(a) then None
      else match a
        case Aside(h) =>
          if Destination(h) in d.files
          then Some(Renamed(d, Destination(h), BackupOf(h, j.txn)))
          else None
        case Install(h) =>
          if StageOf(h, j.txn) in d.files
          then Some(Renamed(d, StageOf(h, j.txn), Destination(h)))
          else None
        case Record =>
          Some(d.(receipts := d.receipts[j.op := Receipt(j.kind, j.newPrivate, j.newPublic)]))
        case Unlink(slot) => Some(d.(files := d.files - {slot}))
        case UnlinkJournal => Some(d.(journal := None))
  }

  /** Nothing is left to recover. */
  predicate Quiescent(d: Disk) {
    d.journal.None? && forall s: Slot :: s in d.files ==> !Transactional(s)
  }

  predicate HalfResumable(d: Disk, j: Journal, h: Half) {
    || At(d, Destination(h)) == Some(New(j, h))
    || (&& At(d, StageOf(h, j.txn)) == Some(New(j, h))
        && match Old(j, h)
           case None => At(d, Destination(h)).None?
           case Some(previous) =>
             || (At(d, BackupOf(h, j.txn)).None? && At(d, Destination(h)) == Some(previous))
             || At(d, BackupOf(h, j.txn)) == Some(previous))
  }

  /** No recovery from this disk can fail, as a condition on files and receipts. */
  predicate Resumable(d: Disk) {
    d.journal.Some? ==>
      var j := d.journal.value;
      && HalfResumable(d, j, PublicHalf)
      && HalfResumable(d, j, PrivateHalf)
      && (j.op in d.receipts ==> d.receipts[j.op] == Receipt(j.kind, j.newPrivate, j.newPublic))
  }

  function WithoutLeftovers(files: map<Slot, Bytes>): map<Slot, Bytes> {
    map s | s in files && !Transactional(s) :: files[s]
  }

  /** The disk a complete recovery leaves, in closed form. */
  function Recovered(d: Disk): Disk {
    match d.journal
    case None => d.(files := WithoutLeftovers(d.files))
    case Some(j) =>
      Disk(WithoutLeftovers(d.files)[Identity := j.newPrivate][Public := j.newPublic],
           None,
           d.receipts[j.op := Receipt(j.kind, j.newPrivate, j.newPublic)])
  }

  function Rank(m: Move): nat {
    match m
    case Installed => 0
    case MoveIn => 1
    case MoveAside => 2
    case Stuck(_) => 0
  }

  /** Recovery operations that remain, at most. */
  function Remaining(d: Disk): nat {
    |d.files| + match d.journal
      case None => 0
      case Some(j) =>
        Rank(InstallMove(d, j, PublicHalf)) + Rank(InstallMove(d, j, PrivateHalf))
        + (if j.op in d.receipts then 0 else 1) + 1
  }

  lemma {:induction false} FirstPresentIsPresent(d: Disk, slots: seq<Slot>)
    ensures match FirstPresent(d, slots)
      case Some(s) => s in slots && s in d.files
      case None => forall s :: s in slots ==> s !in d.files
  {
    if slots != [] {
      assert slots == [slots[0]] + slots[1..];
      FirstPresentIsPresent(d, slots[1..]);
    }
  }

  lemma SweepStep(d: Disk, a: Act, d': Disk)
    requires d.journal.None?
    requires Recover(d, a) == Some(d')
    ensures Recovered(d') == Recovered(d) && Remaining(d') < Remaining(d)
  {
    assert d'.files.Keys == d.files.Keys - {a.slot};
    assert WithoutLeftovers(d'.files) == WithoutLeftovers(d.files);
  }

  lemma RenameFrame(d: Disk, source: Slot, target: Slot)
    requires source in d.files && source != target
    ensures At(Renamed(d, source, target), target) == At(d, source)
    ensures At(Renamed(d, source, target), source) == None
    ensures forall s :: s != source && s != target ==> At(Renamed(d, source, target), s) == At(d, s)
    ensures |Renamed(d, source, target).files| <= |d.files|
  {
    var keys := Renamed(d, source, target).files.Keys;
    assert keys == d.files.Keys - {source} + {target};
    assert |keys| <= |d.files.Keys - {source}| + 1;
  }

  /** Recovery results agree when nothing but the pair and leftovers differ. */
  lemma SameRecovery(d: Disk, d': Disk)
    requires d.journal.Some? && d'.journal == d.journal && d'.receipts == d.receipts
    requires forall s: Slot :: s.Unrelated? ==> At(d', s) == At(d, s)
    ensures Recovered(d') == Recovered(d)
  {
    forall s: Slot
      ensures s in Recovered(d').files <==> s in Recovered(d).files
      ensures s in Recovered(d).files ==> Recovered(d').files[s] == Recovered(d).files[s]
    {
      assert At(d', s) == At(d, s) || !s.Unrelated?;
    }
    assert Recovered(d').files == Recovered(d).files;
  }

  /** The file a rename of the recovery reads and the one it writes. */
  function MoveNames(a: Act, t: Txn): (Slot, Slot)
    requires a.Aside? || a.Install?
  {
    if a.Aside? then (Destination(a.half), BackupOf(a.half, t)) else (StageOf(a.half, t), Destination(a.half))
  }

  /** A planned rename brings its file one step on and leaves the other file alone. */
  lemma MoveProgress(d: Disk, j: Journal, a: Act, d': Disk)
    requires a.Aside? || a.Install?
    requires InstallMove(d, j, a.half) == if a.Aside? then MoveAside else MoveIn
    requires At(d', MoveNames(a, j.txn).1) == At(d, MoveNames(a, j.txn).0)
    requires At(d', MoveNames(a, j.txn).0) == None
    requires forall s :: s != MoveNames(a, j.txn).0 && s != MoveNames(a, j.txn).1 ==> At(d', s) == At(d, s)
    ensures HalfResumable(d, j, a.half) && HalfResumable(d', j, a.half)
    ensures Rank(InstallMove(d', j, a.half)) < Rank(InstallMove(d, j, a.half))
    ensures forall h: Half :: h != a.half ==>
      InstallMove(d', j, h) == InstallMove(d, j, h) && (HalfResumable(d, j, h) <==> HalfResumable(d', j, h))
  {
    hide At;
  }

  /** A recovery's rename, as the files see it. */
  lemma MoveIsRename(d: Disk, a: Act, d': Disk)
    requires d.journal.Some? && (a.Aside? || a.Install?)
    requires Recover(d, a) == Some(d')
    ensures var j := d.journal.value;
      var names := MoveNames(a, j.txn);
      && InstallMove(d, j, a.half) == (if a.Aside? then MoveAside else MoveIn)
      && names.0 in d.files && names.0 != names.1 && d' == Renamed(d, names.0, names.1)
  {
    hide Completion, At, FirstPresent;
  }

  lemma MoveStep(d: Disk, a: Act, d': Disk)
    requires d.journal.Some? && (a.Aside? || a.Install?)
    requires Resumable(d)
    requires Recover(d, a) == Some(d')
    ensures Resumable(d')
    ensures Recovered(d') == Recovered(d) && Remaining(d') < Remaining(d)
  {
    var j := d.journal.value;
    var names := MoveNames(a, j.txn);
    hide Recovered, InstallMove, HalfResumable, Recover, At, Planned;
    MoveIsRename(d, a, d');
    RenameFrame(d, names.0, names.1);
    MoveProgress(d, j, a, d');
    SameRecovery(d, d');
  }

  lemma RecordStep(d: Disk, a: Act, d': Disk)
    requires d.journal.Some? && a.Record?
    requires Resumable(d)
    requires Recover(d, a) == Some(d')
    ensures Resumable(d')
    ensures Recovered(d') == Recovered(d) && Remaining(d') < Remaining(d)
  {
  }

  lemma RemoveStep(d: Disk, a: Act, d': Disk)
    requires d.journal.Some? && a.Unlink?
    requires Resumable(d)
    requires Recover(d, a) == Some(d')
    ensures Resumable(d')
    ensures Recovered(d') == Recovered(d) && Remaining(d') < Remaining(d)
  {
    FirstPresentIsPresent(d, Obsolete(d.journal.value.txn));
    assert d'.files.Keys == d.files.Keys - {a.slot};
    SameRecovery(d, d');
    hide Recovered;
  }

  lemma CloseStep(d: Disk, a: Act, d': Disk)
    requires d.journal.Some? && a.UnlinkJournal?
    requires Resumable(d)
    requires Recover(d, a) == Some(d')
    ensures Recovered(d') == Recovered(d) && Remaining(d') < Remaining(d)
  {
    assert Recovered(d').files == Recovered(d).files;
  }

  /** Every recovery operation keeps the disk recoverable, to the same result, and
    brings the end nearer. */
  lemma {:induction false} RecoverStep(d: Disk, a: Act, d': Disk)
    requires Resumable(d)
    requires Recover(d, a) == Some(d')
    ensures Resumable(d')
    ensures Recovered(d') == Recovered(d)
    ensures Remaining(d') < Remaining(d)
  {
    if d.journal.None? {
      SweepStep(d, a, d');
    } else {
      match a
      case Aside(_) => MoveStep(d, a, d');
      case Install(_) => MoveStep(d, a, d');
      case Record => RecordStep(d, a, d');
      case Unlink(_) => RemoveStep(d, a, d');
      case UnlinkJournal => CloseStep(d, a, d');
    }
  }

  /** A recoverable disk is finished, or some recovery operation is possible. */
  lemma {:induction false} RecoveryNeverStuck(d: Disk)
    requires Resumable(d)
    ensures Quiescent(d) <==> d == Recovered(d)
    ensures !Quiescent(d) ==> exists a :: Recover(d, a).Some?
    ensures d.journal.Some? ==> Planned(d, d.journal.value).Ok?
  {
    if d.journal.Some? {
      assert Recover(d, Planned(d, d.journal.value).value).Some?;
    } else {
      if s: Slot :| s in d.files && Transactional(s) {
        assert Recover(d, Unlink(s)).Some?;
        assert s !in Recovered(d).files;
      } else {
        assert WithoutLeftovers(d.files) == d.files;
      }
    }
  }

  lemma UnresumableMove(d: Disk, a: Act, d': Disk)
    requires d.journal.Some? && (a.Aside? || a.Install?)
    requires Recover(d, a) == Some(d')
    requires Resumable(d')
    ensures Resumable(d)
  {
    var j := d.journal.value;
    var names := MoveNames(a, j.txn);
    hide InstallMove, HalfResumable, Recover, At, Planned;
    MoveIsRename(d, a, d');
    RenameFrame(d, names.0, names.1);
    MoveProgress(d, j, a, d');
  }

  /** Recovery neither repairs nor breaks what makes it fail: the condition can be
    checked before it starts. */
  lemma {:induction false} ResumabilityIsInvariant(d: Disk, a: Act, d': Disk)
    requires Recover(d, a) == Some(d')
    ensures Resumable(d) <==> Resumable(d')
  {
    if Resumable(d) {
      RecoverStep(d, a, d');
    } else if a.Aside? || a.Install? {
      if Resumable(d') {
        UnresumableMove(d, a, d');
      }
    } else {
      FirstPresentIsPresent(d, Obsolete(d.journal.value.txn));
    }
  }

  /** A recovery that stops with an error stops on a disk that is not resumable. */
  lemma PlanFailsOnlyUnresumable(d: Disk)
    requires d.journal.Some?
    requires Planned(d, d.journal.value).Err?
    ensures !Resumable(d)
  {
  }
}