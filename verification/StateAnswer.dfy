/** What one `mutate_state` call answers, as a function of the view it finds. */
module StateAnswer {
  import opened Wrappers
  import opened StateDisk
  import opened StateProtocol
  import opened StateInvariant

  /** One publication more, by this call. */
  ghost predicate Grown(before: seq<Publication>, after: seq<Publication>, req: Request) {
    |after| == |before| + 1 && after[..|before|] == before && after[|before|].req == req
  }

  /** The publications of one call: none or one more. */
  ghost predicate Extends(before: seq<Publication>, after: seq<Publication>, req: Request) {
    after == before || Grown(before, after, req)
  }

  /** An exception from outside; or what the view deserves; or, once the call has
    published, that its validator refuses what it published. */
  ghost predicate Fits(d: Disk, before: seq<Publication>, after: seq<Publication>, req: Request, error: Error) {
    || error.Fault? || error.Unexpected?
    || (after == before && Deserved(d, [], req, error))
    || (Grown(before, after, req) && error.Rejected? && PublicationRefused(after, req))
  }

  /** A value the call has just published, or found, or does not want published. */
  ghost predicate Due(d: Disk, before: seq<Publication>, after: seq<Publication>, req: Request, value: Value) {
    || (Grown(before, after, req) && Confirmed(after, req, value))
    || (after == before && (Replayed(d, req, value) || Unpublished(d, req, value)))
  }

  /** The view holds a record for this call's operation ID. */
  predicate Recorded(view: Option<Tree>, req: Request) {
    view.Some? && req.operation.Some? && Receipt(req.operation.value.id) in view.value
  }

  /** The answer to a retried operation. */
  function Replay(view: Tree, req: Request): Result<Value, Error>
    requires Recorded(Some(view), req)
  {
    var op := req.operation.value;
    match view[Receipt(op.id)]
    case ReceiptOf(kind, value) =>
      if kind != op.kind then Err(Reused)
      else if !op.decodes(value) then Err(Undecodable)
      else if !req.validate(view) then Err(Rejected)
      else Ok(value)
    case _ => Err(Reused)
  }

  /** The answer of a call that no exception from outside stops: a record is replayed or
    refused; else the mutator runs on all that was published before (at first: on the
    legacy content), and what it makes is published exactly when the caller wants it and
    its validator accepts it. */
  ghost predicate Answered(
    view: Option<Tree>, legacy: Tree, before: seq<Publication>, after: seq<Publication>, req: Request,
    result: Result<Value, Error>)
  {
    var base := if view.Some? then view.value - {Manifest} else legacy;
    if Recorded(view, req) then after == before && result == Replay(view.value, req)
    else match req.run(base).outcome
      case None => after == before && result == Err(Raised)
      case Some(value) =>
        if !req.publishIf(value) then after == before && result == Ok(value)
        else if !req.validate(Mutation(req, base)) then after == before && result == Err(Rejected)
        else
          && Grown(before, after, req)
          && var p := after[|before|];
             p.tree == Mutation(req, base)[Manifest := ManifestOf(p.id)]
             && result == if req.validate(p.tree) then Ok(value) else Err(Rejected)
  }

  lemma ViewOfHistory(d: Disk, used: set<Id>, origin: Tree, history: seq<Publication>)
    requires DiskInv(d, used, origin, history)
    ensures View(d) == if history == [] then None else Some(history[|history| - 1].tree)
    ensures d.current == Latest(history)
    ensures Source(d, d.current)
            == if history == [] then origin else history[|history| - 1].tree - {Manifest}
    ensures history == [] ==> d.legacy == origin
    ensures d.current.Some? ==> Intact(d, d.current.value)
  {
  }

  lemma SameReadings(d: Disk, d': Disk, req: Request, value: Value)
    requires d'.current == d.current && View(d') == View(d) && Source(d', d'.current) == Source(d, d.current)
    ensures Replayed(d', req, value) == Replayed(d, req, value)
    ensures Unpublished(d', req, value) == Unpublished(d, req, value)
  {
    hide Source, View;
  }

  /** Without a publication, what a call says of its end holds of its start. */
  lemma QuietAnswer(d: Disk, req: Request, history: seq<Publication>, result: Result<Value, Error>)
    requires View(d).Some? ==> d.current.Some? && Source(d, d.current) == View(d).value - {Manifest}
    requires View(d).None? ==> Source(d, d.current) == d.legacy
    requires match result
      case Ok(value) => Replayed(d, req, value) || Unpublished(d, req, value)
      case Err(error) => !error.Broken? && Deserved(d, [], req, error)
    ensures result == Err(Fault) || result == Err(Unexpected)
      || Answered(View(d), d.legacy, history, history, req, result)
  {
    hide Source, View;
    var base := Source(d, d.current);
    if req.operation.Some? && View(d).Some? {
      assert Receipt(req.operation.value.id) in View(d).value <==> Receipt(req.operation.value.id) in base;
    }
    if Recorded(View(d), req) {
      RecordAnswers(d, req, result);
    }
  }

  lemma RecordAnswers(d: Disk, req: Request, result: Result<Value, Error>)
    requires Recorded(View(d), req)
    requires req.operation.Some? ==> !NewOperation(d, req, d.current)
    requires match result
      case Ok(value) => Replayed(d, req, value) || Unpublished(d, req, value)
      case Err(error) => !error.Broken? && Deserved(d, [], req, error)
    ensures result == Err(Fault) || result == Err(Unexpected) || result == Replay(View(d).value, req)
  {
    hide Source, View, NewOperation;
    var op := req.operation.value;
    match View(d).value[Receipt(op.id)]
    case ReceiptOf(kind, recorded) =>
      assert kind == op.kind ==> Receipted(d, req, recorded);
    case _ =>
  }

  lemma GrownAnswer(
    view: Option<Tree>, legacy: Tree, origin: Tree, before: seq<Publication>, after: seq<Publication>, req: Request,
    result: Result<Value, Error>)
    requires Chain(after, origin) && Grown(before, after, req)
    requires view == if before == [] then None else Some(before[|before| - 1].tree)
    requires before == [] ==> legacy == origin
    requires match result
      case Ok(value) => Confirmed(after, req, value)
      case Err(error) => error.Rejected? && PublicationRefused(after, req)
    ensures Answered(view, legacy, before, after, req, result)
  {
    var n := |before|;
    assert Continues(after, origin, n);
    assert n > 0 ==> after[n - 1] == after[..n][n - 1] == before[n - 1];
    var base := if view.Some? then view.value - {Manifest} else legacy;
    assert after[n].base == base;
    hide Chain, Mutation;
  }

  /** A call's end, read against its start. */
  lemma EndAnswers(
    d: Disk, d': Disk, used: set<Id>, used': set<Id>, origin: Tree, before: seq<Publication>, after: seq<Publication>,
    req: Request, result: Result<Value, Error>)
    requires DiskInv(d, used, origin, before) && DiskInv(d', used', origin, after) && Chain(after, origin)
    requires match result
      case Ok(value) => Due(d', before, after, req, value)
      case Err(error) => Fits(d', before, after, req, error)
    ensures result == Err(Fault) || result == Err(Unexpected)
      || Answered(View(d), d.legacy, before, after, req, result)
  {
    ViewOfHistory(d, used, origin, before);
    ViewOfHistory(d', used', origin, after);
    hide DiskInv, View, Source, Intact, Confirmed, Replayed, Unpublished, PublicationRefused, Chain, Answered;
    if after == before {
      match result {
        case Ok(value) => SameReadings(d, d', req, value);
        case Err(error) =>
          assert error.Broken? ==> !Deserved(d', [], req, error);
          SameDeserts(d, d', req, error);
      }
      hide Deserved;
      QuietAnswer(d, req, before, result);
    } else {
      hide Deserved;
      if result != Err(Fault) && result != Err(Unexpected) {
        GrownAnswer(View(d), d.legacy, origin, before, after, req, result);
      }
    }
  }

  lemma SameDeserts(d: Disk, d': Disk, req: Request, error: Error)
    requires d'.current == d.current && View(d') == View(d) && Source(d', d'.current) == Source(d, d.current)
    ensures !error.Broken? ==> Deserved(d', [], req, error) == Deserved(d, [], req, error)
  {
    hide Source, View;
    assert forall value :: Receipted(d', req, value) == Receipted(d, req, value);
  }

  lemma FitsStays(
    d: Disk, d': Disk, before: seq<Publication>, after: seq<Publication>, req: Request, error: Error)
    requires Fits(d, before, after, req, error)
    requires d'.current == d.current && View(d') == View(d) && Source(d', d'.current) == Source(d, d.current)
    requires !error.Broken?
    ensures Fits(d', before, after, req, error)
  {
    SameDeserts(d, d', req, error);
    hide Source, View, PublicationRefused;
  }

  lemma FaultFits(d: Disk, history: seq<Publication>, req: Request)
    ensures Fits(d, history, history, req, Fault)
  {
  }

  lemma DesertFits(d: Disk, history: seq<Publication>, req: Request, error: Error)
    requires Deserved(d, [], req, error)
    ensures Fits(d, history, history, req, error)
  {
  }
}
