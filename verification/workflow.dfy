/** The reviewed life of an optimization proposal: files written in order, failures and stops. */
module Workflow {
  import opened Prelude

  datatype Status = Proposed | Accepted | Rejected | Stale | Measured

  /**
   * The file a path leads to: one of a proposal's own files, or any other one. The human-owned
   * output of an acceptance may be any of them.
   */
  datatype Path =
    | ProposalFile(id: string)
    | SchemaFile(id: string)
    | DeliveryFile(id: string)
    | DecisionFile(id: string)
    | EvaluationFile(id: string)
    | OutputFile(name: string)

  /** proposal.json, as far as the workflow is concerned; without a schema the proposal records no path for one. */
  datatype Proposal = Proposal(status: Status, hashes: set<string>, hasSchema: bool)

  /** delivery.json: where the accepted schema went, and when. */
  datatype Delivery = Delivery(proposalId: string, output: Path, deliveredAt: int)

  datatype File =
    | ProposalJson(proposal: Proposal)
    | DeliveryJson(delivery: Delivery)
    | DecisionJson(reason: string)
    | EvaluationJson(payload: string)
    | Bytes(text: string)

  type Disk = map<Path, File>

  /** What happens to one file operation; Stops ends the process before it. */
  datatype Fate = Done | Fails | Stops

  datatype Error = InvalidReason | Unknown | Malformed | MissingArtifact | NoSchema | CannotRevalidate | StaleProposal
                 | Conflict | CannotCompare | CannotPersist | BadDelivery

  datatype Reply = Returned(status: Status) | Raised(error: Error) | Stopped

  /** The fates of the file operations of one acceptance, in program order. */
  datatype AcceptFates = AcceptFates(
    stale: Fate, compare: Fate, readSchema: Fate, open: Fate, write: Fate, unlinkPartial: Fate,
    delivery: Fate, proposal: Fate, unlinkOutput: Fate, unlinkDelivery: Fate)

  /** Input of one acceptance; `current` is None when the source hashes cannot be read, `clock` when the clock fails. */
  datatype AcceptCall = AcceptCall(id: string, output: Path, ifIdentical: bool, current: Option<set<string>>,
                                   clock: Option<int>, partial: string, fates: AcceptFates)

  datatype RejectCall = RejectCall(id: string, reason: string, decision: Fate, proposal: Fate)

  datatype RecordCall = RecordCall(id: string, payload: string, evaluation: Fate, proposal: Fate)

  datatype Command = DoAccept(accept: AcceptCall) | DoReject(reject: RejectCall) | DoRecord(record: RecordCall)

  /** Loading a proposal: it must be known and well formed, and its recorded schema must be there. */
  function Load(d: Disk, id: string): Result<Proposal, Error> {
    if ProposalFile(id) !in d then Err(Unknown)
    else if !d[ProposalFile(id)].ProposalJson? then Err(Malformed)
    else if d[ProposalFile(id)].proposal.hasSchema && SchemaFile(id) !in d then Err(MissingArtifact)
    else Ok(d[ProposalFile(id)].proposal)
  }

  function Written(d: Disk, path: Path, file: File, fate: Fate): Disk { if fate.Done? then d[path := file] else d }

  function Unlinked(d: Disk, path: Path, fate: Fate): Disk { if fate.Done? then d - {path} else d }

  function WithStatus(d: Disk, id: string, p: Proposal, s: Status): Disk {
    d[ProposalFile(id) := ProposalJson(p.(status := s))]
  }

  /** The clean-up after a failed delivery or status write; each unlink may fail silently. */
  function Undo(d: Disk, c: AcceptCall): (Disk, bool) {
    if c.fates.unlinkOutput.Stops? then (d, true)
    else
      var d1 := Unlinked(d, c.output, c.fates.unlinkOutput);
      if c.fates.unlinkDelivery.Stops? then (d1, true)
      else (Unlinked(d1, DeliveryFile(c.id), c.fates.unlinkDelivery), false)
  }

  function Abort(d: Disk, c: AcceptCall, e: Error): (Disk, Reply) {
    var (d', stopped) := Undo(d, c);
    (d', if stopped then Stopped else Raised(e))
  }

  /** Delivery first, then the status: what acceptance does once the output is complete. */
  function Deliver(d: Disk, c: AcceptCall, p: Proposal): (Disk, Reply) {
    if c.clock.None? then Abort(d, c, BadDelivery)
    else
      match c.fates.delivery
      case Stops => (d, Stopped)
      case Fails => Abort(d, c, CannotPersist)
      case Done =>
        var d1 := d[DeliveryFile(c.id) := DeliveryJson(Delivery(c.id, c.output, c.clock.value))];
        match c.fates.proposal
        case Stops => (d1, Stopped)
        case Fails => Abort(d1, c, CannotPersist)
        case Done => (WithStatus(d1, c.id, p, Accepted), Returned(Accepted))
  }

  /** Creating and filling the output file. */
  function WriteOutput(d: Disk, c: AcceptCall, p: Proposal, content: File): (Disk, Reply) {
    match c.fates.open
    case Stops => (d, Stopped)
    case Fails => (d, Raised(CannotPersist))
    case Done =>
      match c.fates.write
      case Stops => (d[c.output := Bytes(c.partial)], Stopped)
      case Fails =>
        var d1 := d[c.output := Bytes(c.partial)];
        (Unlinked(d1, c.output, c.fates.unlinkPartial), if c.fates.unlinkPartial.Stops? then Stopped else Raised(CannotPersist))
      case Done => Deliver(d[c.output := content], c, p)
  }

  function AcceptStep(d: Disk, c: AcceptCall): (Disk, Reply) {
    var loaded := Load(d, c.id);
    if loaded.Err? then (d, Raised(loaded.error))
    else
      var p := loaded.value;
      if p.status.Stale? then (d, Raised(StaleProposal))
      else if c.current.None? then (d, Raised(CannotRevalidate))
      else if !(p.hashes <= c.current.value) then
        match c.fates.stale
        case Stops => (d, Stopped)
        case Fails => (d, Raised(CannotPersist))
        case Done => (WithStatus(d, c.id, p, Stale), Raised(StaleProposal))
      else if !p.hasSchema then (d, Raised(NoSchema))
      else if c.output in d then
        if c.ifIdentical && c.fates.compare.Stops? then (d, Stopped)
        else if c.ifIdentical && c.fates.compare.Fails? then (d, Raised(CannotCompare))
        else if c.ifIdentical && d[c.output] == d[SchemaFile(c.id)] && p.status.Accepted? then (d, Returned(Accepted))
        else (d, Raised(Conflict))
      else if !p.status.Proposed? then (d, Raised(Conflict))
      else
        match c.fates.readSchema
        case Stops => (d, Stopped)
        case Fails => (d, Raised(CannotPersist))
        case Done => WriteOutput(d, c, p, d[SchemaFile(c.id)])
  }

  function RejectStep(d: Disk, c: RejectCall): (Disk, Reply) {
    if Blank(c.reason) then (d, Raised(InvalidReason))
    else
      var loaded := Load(d, c.id);
      if loaded.Err? then (d, Raised(loaded.error))
      else
        var p, path, decision := loaded.value, DecisionFile(c.id), DecisionJson(Strip(c.reason));
        if p.status.Rejected? && path in d && !d[path].DecisionJson? then (d, Raised(Malformed))
        else if p.status.Rejected? && path in d && d[path] == decision then (d, Returned(Rejected))
        else if !p.status.Proposed? then (d, Raised(Conflict))
        else
          match c.decision
          case Stops => (d, Stopped)
          case Fails => (d, Raised(CannotPersist))
          case Done =>
            match c.proposal
            case Stops => (d[path := decision], Stopped)
            case Fails => (d[path := decision], Raised(CannotPersist))
            case Done => (WithStatus(d[path := decision], c.id, p, Rejected), Returned(Rejected))
  }

  function RecordStep(d: Disk, c: RecordCall): (Disk, Reply) {
    var loaded := Load(d, c.id);
    if loaded.Err? then (d, Raised(loaded.error))
    else
      var p, path, evaluation := loaded.value, EvaluationFile(c.id), EvaluationJson(c.payload);
      if !p.status.Accepted? && !p.status.Measured? then (d, Raised(Conflict))
      else if p.status.Measured? && path in d && !d[path].EvaluationJson? then (d, Raised(Malformed))
      else if p.status.Measured? && path in d && d[path] == evaluation then (d, Returned(Measured))
      else
        match c.evaluation
        case Stops => (d, Stopped)
        case Fails => (d, Raised(CannotPersist))
        case Done =>
          match c.proposal
          case Stops => (d[path := evaluation], Stopped)
          case Fails => (d[path := evaluation], Raised(CannotPersist))
          case Done => (WithStatus(d[path := evaluation], c.id, p, Measured), Returned(Measured))
  }

  function Step(d: Disk, c: Command): (Disk, Reply) {
    match c
    case DoAccept(a) => AcceptStep(d, a)
    case DoReject(r) => RejectStep(d, r)
    case DoRecord(m) => RecordStep(d, m)
  }

  /** Loading a delivery: only for a delivered proposal, and only its own record. */
  function LoadDelivery(d: Disk, id: string): Result<Delivery, Error> {
    var loaded, path := Load(d, id), DeliveryFile(id);
    if loaded.Err? then Err(loaded.error)
    else if (!loaded.value.status.Accepted? && !loaded.value.status.Measured?) || path !in d then Err(Conflict)
    else if !d[path].DeliveryJson? || d[path].delivery.proposalId != id then Err(BadDelivery)
    else Ok(d[path].delivery)
  }

  // ---- the workflow itself, writing file by file ----

  class AdaptiveWorkflow {
    var files: Disk

    constructor (d: Disk)
      ensures files == d
    {
      files := d;
    }

    /** Replaces one file in one step, or not at all. */
    method Replace(path: Path, file: File, fate: Fate)
      modifies this
      ensures files == Written(old(files), path, file, fate)
    {
      if fate.Done? { files := files[path := file]; }
    }

    method Unlink(path: Path, fate: Fate)
      modifies this
      ensures files == Unlinked(old(files), path, fate)
    {
      if fate.Done? { files := files - {path}; }
    }

    method AssertCurrentOrMarkStale(id: string, p: Proposal, current: Option<set<string>>, fate: Fate)
      returns (r: Option<Reply>)
      modifies this
      ensures r.None? ==> files == old(files) && !p.status.Stale? && current.Some? && p.hashes <= current.value
      ensures r.Some? ==>
        (r.value, files) ==
          if p.status.Stale? then (Raised(StaleProposal), old(files))
          else if current.None? then (Raised(CannotRevalidate), old(files))
          else if fate.Stops? then (Stopped, old(files))
          else if fate.Fails? then (Raised(CannotPersist), old(files))
          else (Raised(StaleProposal), WithStatus(old(files), id, p, Stale))
      ensures r.Some? ==> p.status.Stale? || current.None? || !(p.hashes <= current.value)
    {
      if p.status.Stale? { return Some(Raised(StaleProposal)); }
      if current.None? { return Some(Raised(CannotRevalidate)); }
      if !(p.hashes <= current.value) {
        if fate.Stops? { return Some(Stopped); }
        Replace(ProposalFile(id), ProposalJson(p.(status := Stale)), fate);
        return Some(Raised(if fate.Fails? then CannotPersist else StaleProposal));
      }
      r := None;
    }

    /** Removes the new output and the delivery record after a failed write. */
    method CleanUp(c: AcceptCall, e: Error) returns (r: Reply)
      modifies this
      ensures (files, r) == Abort(old(files), c, e)
    {
      if c.fates.unlinkOutput.Stops? { return Stopped; }
      Unlink(c.output, c.fates.unlinkOutput);
      if c.fates.unlinkDelivery.Stops? { return Stopped; }
      Unlink(DeliveryFile(c.id), c.fates.unlinkDelivery);
      r := Raised(e);
    }

    method RecordDelivery(c: AcceptCall, p: Proposal) returns (r: Reply)
      modifies this
      ensures (files, r) == Deliver(old(files), c, p)
    {
      if c.clock.None? { r := CleanUp(c, BadDelivery); return; }
      if c.fates.delivery.Stops? { return Stopped; }
      Replace(DeliveryFile(c.id), DeliveryJson(Delivery(c.id, c.output, c.clock.value)), c.fates.delivery);
      if c.fates.delivery.Fails? { r := CleanUp(c, CannotPersist); return; }
      if c.fates.proposal.Stops? { return Stopped; }
      Replace(ProposalFile(c.id), ProposalJson(p.(status := Accepted)), c.fates.proposal);
      if c.fates.proposal.Fails? { r := CleanUp(c, CannotPersist); return; }
      r := Returned(Accepted);
    }

    /** Copies the schema to a new path, records the delivery, then the status. */
    method Accept(c: AcceptCall) returns (r: Reply)
      modifies this
      ensures (files, r) == AcceptStep(old(files), c)
    {
      var loaded := Load(files, c.id);
      if loaded.Err? { return Raised(loaded.error); }
      var p := loaded.value;
      var refused := AssertCurrentOrMarkStale(c.id, p, c.current, c.fates.stale);
      if refused.Some? { return refused.value; }
      if !p.hasSchema { return Raised(NoSchema); }
      if c.output in files {
        if c.ifIdentical {
          if c.fates.compare.Stops? { return Stopped; }
          if c.fates.compare.Fails? { return Raised(CannotCompare); }
          if files[c.output] == files[SchemaFile(c.id)] && p.status.Accepted? { return Returned(Accepted); }
        }
        return Raised(Conflict);
      }
      if !p.status.Proposed? { return Raised(Conflict); }
      if c.fates.readSchema.Stops? { return Stopped; }
      if c.fates.readSchema.Fails? { return Raised(CannotPersist); }
      var content := files[SchemaFile(c.id)];
      if c.fates.open.Stops? { return Stopped; }
      if c.fates.open.Fails? { return Raised(CannotPersist); }
      if !c.fates.write.Done? {
        files := files[c.output := Bytes(c.partial)];
        if c.fates.write.Stops? || c.fates.unlinkPartial.Stops? { return Stopped; }
        Unlink(c.output, c.fates.unlinkPartial);
        return Raised(CannotPersist);
      }
      files := files[c.output := content];
      r := RecordDelivery(c, p);
    }

    /** Writes the decision, then the status. */
    method Reject(c: RejectCall) returns (r: Reply)
      modifies this
      ensures (files, r) == RejectStep(old(files), c)
    {
      if Blank(c.reason) { return Raised(InvalidReason); }
      var loaded := Load(files, c.id);
      if loaded.Err? { return Raised(loaded.error); }
      var p, path, decision := loaded.value, DecisionFile(c.id), DecisionJson(Strip(c.reason));
      if p.status.Rejected? && path in files {
        if !files[path].DecisionJson? { return Raised(Malformed); }
        if files[path] == decision { return Returned(Rejected); }
      }
      if !p.status.Proposed? { return Raised(Conflict); }
      if c.decision.Stops? { return Stopped; }
      Replace(path, decision, c.decision);
      if c.decision.Fails? { return Raised(CannotPersist); }
      if c.proposal.Stops? { return Stopped; }
      Replace(ProposalFile(c.id), ProposalJson(p.(status := Rejected)), c.proposal);
      if c.proposal.Fails? { return Raised(CannotPersist); }
      r := Returned(Rejected);
    }

    /** Writes the evaluation, then the status. */
    method RecordOutcome(c: RecordCall) returns (r: Reply)
      modifies this
      ensures (files, r) == RecordStep(old(files), c)
    {
      var loaded := Load(files, c.id);
      if loaded.Err? { return Raised(loaded.error); }
      var p, path, evaluation := loaded.value, EvaluationFile(c.id), EvaluationJson(c.payload);
      if !p.status.Accepted? && !p.status.Measured? { return Raised(Conflict); }
      if p.status.Measured? && path in files {
        if !files[path].EvaluationJson? { return Raised(Malformed); }
        if files[path] == evaluation { return Returned(Measured); }
      }
      if c.evaluation.Stops? { return Stopped; }
      Replace(path, evaluation, c.evaluation);
      if c.evaluation.Fails? { return Raised(CannotPersist); }
      if c.proposal.Stops? { return Stopped; }
      Replace(ProposalFile(c.id), ProposalJson(p.(status := Measured)), c.proposal);
      if c.proposal.Fails? { return Raised(CannotPersist); }
      r := Returned(Measured);
    }
  }
}
