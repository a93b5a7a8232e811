/** When acceptance, rejection and measurement succeed and when they refuse, told from the disk and the call. */
module WorkflowAnswers {
  import opened Prelude
  import opened Workflow

  /** proposal.json of id holds p, and the schema it records is there. */
  predicate Loads(d: Disk, id: string, p: Proposal) {
    && ProposalFile(id) in d && d[ProposalFile(id)] == ProposalJson(p)
    && (p.hasSchema ==> SchemaFile(id) in d)
  }

  /** Every source definition the proposal was made from is still there. */
  predicate IsCurrent(p: Proposal, current: Option<set<string>>) {
    current.Some? && forall h | h in p.hashes :: h in current.value
  }

  predicate AllWritten(f: AcceptFates) {
    f.readSchema.Done? && f.open.Done? && f.write.Done? && f.delivery.Done? && f.proposal.Done?
  }

  /** A proposed proposal, current and with a schema, a free output, a clock, and no failure. */
  predicate Creates(d: Disk, c: AcceptCall, p: Proposal) {
    && Loads(d, c.id, p) && p.status == Proposed && p.hasSchema && IsCurrent(p, c.current)
    && c.output !in d && c.clock.Some? && AllWritten(c.fates)
  }

  /** An accepted proposal, still current, whose output exists, can be compared and holds the schema, as asked for. */
  predicate Repeats(d: Disk, c: AcceptCall, p: Proposal) {
    && Loads(d, c.id, p) && p.status == Accepted && p.hasSchema && IsCurrent(p, c.current)
    && c.ifIdentical && c.fates.compare.Done? && c.output in d && d[c.output] == d[SchemaFile(c.id)]
  }

  lemma LoadsExactly(d: Disk, id: string, p: Proposal)
    ensures Load(d, id) == Ok(p) <==> Loads(d, id, p)
    ensures Load(d, id) == Err(Unknown) <==> ProposalFile(id) !in d
    ensures Load(d, id) == Err(MissingArtifact) <==>
              && ProposalFile(id) in d && d[ProposalFile(id)].ProposalJson? && d[ProposalFile(id)].proposal.hasSchema
              && SchemaFile(id) !in d
  {
  }

  /**
   * Whatever its status, a proposal whose sources changed is not accepted: no file is
   * created, none but its own changes, and that one only becomes stale.
   */
  lemma DriftIsRefused(d: Disk, c: AcceptCall, p: Proposal)
    requires Loads(d, c.id, p) && p.status != Stale && c.current.Some? && !IsCurrent(p, c.current)
    ensures !AcceptStep(d, c).1.Returned? && AcceptStep(d, c).0.Keys == d.Keys
    ensures c.fates.stale.Done? ==>
              && AcceptStep(d, c).0 == d[ProposalFile(c.id) := ProposalJson(Proposal(Stale, p.hashes, p.hasSchema))]
              && AcceptStep(d, c).1 == Raised(StaleProposal)
    ensures !c.fates.stale.Done? ==> AcceptStep(d, c).0 == d
  {
    assert AcceptStep(d, c).0.Keys == d.Keys;
  }

  /** A stale proposal stays refused, and nothing changes. */
  lemma StaleIsRefused(d: Disk, c: AcceptCall, p: Proposal)
    requires Loads(d, c.id, p) && p.status == Stale
    ensures AcceptStep(d, c) == (d, Raised(StaleProposal))
  {
  }

  /**
   * Acceptance returns exactly when it creates a new output or repeats an old one, and
   * what is on the disk then.
   */
  lemma AcceptReturnsExactly(d: Disk, c: AcceptCall)
    ensures AcceptStep(d, c).1.Returned? <==> exists p :: Creates(d, c, p) || Repeats(d, c, p)
    ensures forall p | Creates(d, c, p) ::
              AcceptStep(d, c) == (d[c.output := d[SchemaFile(c.id)]]
                                    [DeliveryFile(c.id) := DeliveryJson(Delivery(c.id, c.output, c.clock.value))]
                                    [ProposalFile(c.id) := ProposalJson(Proposal(Accepted, p.hashes, p.hasSchema))],
                                   Returned(Accepted))
    ensures forall p | Repeats(d, c, p) :: AcceptStep(d, c) == (d, Returned(Accepted))
  {
    if Load(d, c.id).Ok? {
      var p := Load(d, c.id).value;
      assert Loads(d, c.id, p);
      assert AcceptStep(d, c).1.Returned? ==> Creates(d, c, p) || Repeats(d, c, p);
    }
  }

  /** A current proposal is in conflict exactly with an output that is no identical repeat, or by its status. */
  lemma ConflictsExactly(d: Disk, c: AcceptCall, p: Proposal)
    requires Loads(d, c.id, p) && p.status != Stale && p.hasSchema && IsCurrent(p, c.current)
    ensures AcceptStep(d, c).1 == Raised(Conflict) <==>
              if c.output in d then (c.ifIdentical ==> c.fates.compare.Done?) && !Repeats(d, c, p)
              else p.status != Proposed
    ensures AcceptStep(d, c).1 == Raised(Conflict) ==> AcceptStep(d, c).0 == d
  {
  }

  /** What else acceptance raises, and when; only drift changes the disk. */
  lemma AcceptErrorsExactly(d: Disk, c: AcceptCall, p: Proposal)
    requires Loads(d, c.id, p)
    ensures var (d', r) := AcceptStep(d, c);
            && (r == Raised(StaleProposal) <==>
                  p.status == Stale || (c.current.Some? && !IsCurrent(p, c.current) && c.fates.stale.Done?))
            && (r == Raised(CannotRevalidate) <==> p.status != Stale && c.current.None?)
            && (r == Raised(NoSchema) <==> p.status != Stale && IsCurrent(p, c.current) && !p.hasSchema)
            && (r == Raised(CannotCompare) <==>
                  && p.status != Stale && IsCurrent(p, c.current) && p.hasSchema
                  && c.output in d && c.ifIdentical && c.fates.compare.Fails?)
            && (r == Raised(CannotRevalidate) || r == Raised(NoSchema) || r == Raised(CannotCompare) ==> d' == d)
  {
  }

  /** A proposal that cannot be loaded is refused for that by every command, and nothing changes. */
  lemma UnloadableIsRefused(d: Disk, a: AcceptCall, m: RecordCall, e: Error)
    requires a.id == m.id && Load(d, a.id) == Err(e)
    ensures AcceptStep(d, a) == (d, Raised(e)) && RecordStep(d, m) == (d, Raised(e))
  {
  }

  // ---- rejection, measurement and deliveries ----

  /** Rejection returns exactly for a reason, and a proposed proposal without failure or the same rejection again. */
  lemma RejectReturnsExactly(d: Disk, c: RejectCall)
    ensures RejectStep(d, c).1.Returned? <==> exists p :: Rejects(d, c, p) || RejectsAgain(d, c, p)
    ensures forall p | Rejects(d, c, p) ::
              RejectStep(d, c) == (d[DecisionFile(c.id) := DecisionJson(Strip(c.reason))]
                                    [ProposalFile(c.id) := ProposalJson(Proposal(Rejected, p.hashes, p.hasSchema))],
                                   Returned(Rejected))
    ensures forall p | RejectsAgain(d, c, p) :: RejectStep(d, c) == (d, Returned(Rejected))
  {
    if Load(d, c.id).Ok? {
      var p := Load(d, c.id).value;
      assert Loads(d, c.id, p);
      assert RejectStep(d, c).1.Returned? ==> Rejects(d, c, p) || RejectsAgain(d, c, p);
    }
  }

  /** What rejection raises besides failures of its writes, and when; nothing changes then. */
  lemma RejectErrorsExactly(d: Disk, c: RejectCall, p: Proposal)
    requires Loads(d, c.id, p)
    ensures var (d', r) := RejectStep(d, c);
            && (r == Raised(InvalidReason) <==> Blank(c.reason))
            && (r == Raised(Malformed) <==>
                  && !Blank(c.reason) && p.status == Rejected && DecisionFile(c.id) in d
                  && !d[DecisionFile(c.id)].DecisionJson?)
            && (r == Raised(Conflict) <==>
                  && !Blank(c.reason) && p.status != Proposed && r != Raised(Malformed) && !RejectsAgain(d, c, p))
            && (r == Raised(InvalidReason) || r == Raised(Malformed) || r == Raised(Conflict) ==> d' == d)
  {
  }

  /** What measurement raises besides failures of its writes, and when. */
  lemma RecordErrorsExactly(d: Disk, c: RecordCall, p: Proposal)
    requires Loads(d, c.id, p)
    ensures var (d', r) := RecordStep(d, c);
            && (r == Raised(Conflict) <==> p.status != Accepted && p.status != Measured)
            && (r == Raised(Malformed) <==>
                  p.status == Measured && EvaluationFile(c.id) in d && !d[EvaluationFile(c.id)].EvaluationJson?)
            && (r == Raised(Conflict) || r == Raised(Malformed) ==> d' == d)
  {
  }

  predicate Rejects(d: Disk, c: RejectCall, p: Proposal) {
    Loads(d, c.id, p) && p.status == Proposed && !Blank(c.reason) && c.decision.Done? && c.proposal.Done?
  }

  predicate RejectsAgain(d: Disk, c: RejectCall, p: Proposal) {
    && Loads(d, c.id, p) && p.status == Rejected && !Blank(c.reason)
    && DecisionFile(c.id) in d && d[DecisionFile(c.id)] == DecisionJson(Strip(c.reason))
  }

  predicate Measures(d: Disk, c: RecordCall, p: Proposal) {
    && Loads(d, c.id, p) && (p.status == Accepted || p.status == Measured)
    && (p.status == Measured && EvaluationFile(c.id) in d ==>
          d[EvaluationFile(c.id)].EvaluationJson? && d[EvaluationFile(c.id)].payload != c.payload)
    && c.evaluation.Done? && c.proposal.Done?
  }

  predicate MeasuresAgain(d: Disk, c: RecordCall, p: Proposal) {
    && Loads(d, c.id, p) && p.status == Measured
    && EvaluationFile(c.id) in d && d[EvaluationFile(c.id)] == EvaluationJson(c.payload)
  }

  /** Measurement returns exactly for a delivered proposal without failure, or the same evaluation again. */
  lemma RecordReturnsExactly(d: Disk, c: RecordCall)
    ensures RecordStep(d, c).1.Returned? <==> exists p :: Measures(d, c, p) || MeasuresAgain(d, c, p)
    ensures forall p | Measures(d, c, p) ::
              RecordStep(d, c) == (d[EvaluationFile(c.id) := EvaluationJson(c.payload)]
                                    [ProposalFile(c.id) := ProposalJson(Proposal(Measured, p.hashes, p.hasSchema))],
                                   Returned(Measured))
    ensures forall p | MeasuresAgain(d, c, p) :: RecordStep(d, c) == (d, Returned(Measured))
  {
    if Load(d, c.id).Ok? {
      var p := Load(d, c.id).value;
      assert Loads(d, c.id, p);
      assert RecordStep(d, c).1.Returned? ==> Measures(d, c, p) || MeasuresAgain(d, c, p);
    }
  }

  /** A delivery loads exactly when an accepted or measured proposal has its own record. */
  lemma DeliveryLoadsExactly(d: Disk, id: string, x: Delivery)
    ensures LoadDelivery(d, id) == Ok(x) <==>
              && (exists p :: Loads(d, id, p) && (p.status == Accepted || p.status == Measured))
              && DeliveryFile(id) in d && d[DeliveryFile(id)] == DeliveryJson(x) && x.proposalId == id
  {
    if Load(d, id).Ok? { assert Loads(d, id, Load(d, id).value); }
  }
}
