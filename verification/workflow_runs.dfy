/** What every run of accept, reject and record_outcome keeps, with failures and stops anywhere. */
module WorkflowRuns {
  import opened Prelude
  import opened Workflow

  // ---- runs ----

  /** The disk after each command, the initial one first. */
  function States(d: Disk, cs: seq<Command>): (r: seq<Disk>)
    ensures |r| == |cs| + 1 && r[0] == d
    decreases |cs|
  {
    if cs == [] then [d] else [d] + States(Step(d, cs[0]).0, cs[1..])
  }

  /** The status in a well-formed proposal.json. */
  function StatusOf(d: Disk, id: string): Option<Status> {
    if ProposalFile(id) in d && d[ProposalFile(id)].ProposalJson? then Some(d[ProposalFile(id)].proposal.status) else None
  }

  /** A proposal as the generator publishes it. */
  predicate Published(d: Disk, id: string) {
    && StatusOf(d, id) == Some(Proposed)
    && DeliveryFile(id) !in d && DecisionFile(id) !in d && EvaluationFile(id) !in d
  }

  /** Generated schemas are no JSON files of the workflow. */
  ghost predicate SchemasAreText(d: Disk) { forall id: string | SchemaFile(id) in d :: d[SchemaFile(id)].Bytes? }

  ghost predicate Initial(d: Disk) {
    SchemasAreText(d) && forall id: string | ProposalFile(id) in d :: Published(d, id)
  }

  // ---- the files behind each status ----

  /** The path is one of no proposal's own files. */
  predicate IsOutput(p: Path) { p.OutputFile? }

  /** There is a delivery record of the proposal, and an output that is no proposal file holds the generated schema. */
  predicate Delivered(d: Disk, id: string) {
    && DeliveryFile(id) in d && d[DeliveryFile(id)].DeliveryJson? && d[DeliveryFile(id)].delivery.proposalId == id
    && SchemaFile(id) in d
    && var output := d[DeliveryFile(id)].delivery.output;
       IsOutput(output) ==> output in d && d[output] == d[SchemaFile(id)]
  }

  predicate Backed(d: Disk, id: string) {
    var s := StatusOf(d, id);
    && (s == Some(Accepted) || s == Some(Measured) ==> Delivered(d, id))
    && (s == Some(Measured) ==> EvaluationFile(id) in d && d[EvaluationFile(id)].EvaluationJson?)
    && (s == Some(Rejected) ==> DecisionFile(id) in d && d[DecisionFile(id)].DecisionJson?)
  }

  ghost predicate AllBacked(d: Disk) { forall id: string :: Backed(d, id) }

  /** What all states of a run have in common. */
  ghost predicate Good(d: Disk) { SchemasAreText(d) && AllBacked(d) }

  // ---- what one command may change ----

  /** The files a command about this proposal writes by name. */
  predicate OwnFile(id: string, p: Path) {
    p == ProposalFile(id) || p == DeliveryFile(id) || p == DecisionFile(id) || p == EvaluationFile(id)
  }

  /** Every file but the proposal's own stays as it is. */
  predicate OthersKept(d: Disk, d': Disk, id: string) {
    forall p | p in d && !OwnFile(id, p) :: p in d' && d'[p] == d[p]
  }

  predicate Allowed(a: Status, b: Status) {
    a == b || match a
              case Proposed => b.Accepted? || b.Rejected? || b.Stale?
              case Accepted => b.Measured? || b.Stale?
              case Measured => b.Stale?
              case Rejected => b.Stale?
              case Stale => false
  }

  /** The proposal keeps everything but its status, which moves along the lifecycle. */
  predicate StatusMoves(d: Disk, d': Disk, id: string) {
    StatusOf(d, id).Some? ==>
      && StatusOf(d', id).Some? && Allowed(StatusOf(d, id).value, StatusOf(d', id).value)
      && d'[ProposalFile(id)].proposal.(status := Proposed) == d[ProposalFile(id)].proposal.(status := Proposed)
  }

  /** What one command does to the whole disk. */
  ghost predicate GoodStep(d: Disk, d': Disk, id: string) {
    && OthersKept(d, d', id) && StatusMoves(d, d', id)
    && (Good(d) ==> Good(d'))
    && (SchemasAreText(d) ==> forall i: string | StatusOf(d', i).Some? :: StatusOf(d, i).Some?)
  }

  function Target(c: Command): string {
    match c case DoAccept(a) => a.id case DoReject(r) => r.id case DoRecord(m) => m.id
  }

  /** A command that touches only its own proposal's files keeps the others backed. */
  lemma OthersStayBacked(d: Disk, d': Disk, id: string, i: string)
    requires OthersKept(d, d', id) && i != id && Backed(d, i) && StatusOf(d', i) == StatusOf(d, i)
    ensures Backed(d', i)
  {
    var s := StatusOf(d, i);
    if s == Some(Accepted) || s == Some(Measured) {
      assert DeliveryFile(i) in d && SchemaFile(i) in d;
      var output := d[DeliveryFile(i)].delivery.output;
      if IsOutput(output) { assert output in d && !OwnFile(id, output); }
    }
  }

  // ---- acceptance ----

  predicate SameAt(d: Disk, d': Disk, p: Path) { (p in d <==> p in d') && (p in d ==> d'[p] == d[p]) }

  /** An acceptance touches its output, its delivery record and its status. */
  ghost predicate Agree(d: Disk, d': Disk, c: AcceptCall) {
    forall p | p != c.output && p != DeliveryFile(c.id) && p != ProposalFile(c.id) :: SameAt(d, d', p)
  }

  lemma UndoEffect(d: Disk, c: AcceptCall)
    requires c.output != ProposalFile(c.id)
    ensures var d' := Undo(d, c).0;
            && Agree(d, d', c) && SameAt(d, d', ProposalFile(c.id))
            && forall p | p in d' :: p in d && d'[p] == d[p]
  {
  }

  /** The delivery record, if there is one, is the one before or this acceptance's. */
  predicate DeliveryEffect(d: Disk, d': Disk, c: AcceptCall) {
    var path := DeliveryFile(c.id);
    && (path in d' ==> SameAt(d', d, path) || d'[path].DeliveryJson?)
    && (c.output in d' && c.output != path ==> SameAt(d', d, c.output))
  }

  /** The status is as before, or accepted with the delivery of a complete output. */
  predicate StatusEffect(d: Disk, d': Disk, c: AcceptCall, p: Proposal) {
    var path, delivery := ProposalFile(c.id), DeliveryFile(c.id);
    || SameAt(d, d', path)
    || (&& path in d' && d'[path] == ProposalJson(p.(status := Accepted))
        && delivery in d' && d'[delivery].DeliveryJson?
        && d'[delivery].delivery.proposalId == c.id && d'[delivery].delivery.output == c.output
        && (c.output != delivery ==> SameAt(d, d', c.output)))
  }

  lemma DeliverEffect(d: Disk, c: AcceptCall, p: Proposal)
    requires c.output != ProposalFile(c.id)
    ensures var d' := Deliver(d, c, p).0; Agree(d, d', c) && DeliveryEffect(d, d', c) && StatusEffect(d, d', c, p)
  {
    if c.clock.None? || c.fates.delivery.Fails? {
      UndoEffect(d, c);
    } else if c.fates.delivery.Done? && c.fates.proposal.Fails? {
      UndoEffect(d[DeliveryFile(c.id) := DeliveryJson(Delivery(c.id, c.output, c.clock.value))], c);
    }
  }

  /** What an acceptance that gets as far as its output does to the disk. */
  ghost predicate AcceptEffect(d: Disk, d': Disk, c: AcceptCall, p: Proposal, content: File) {
    && Agree(d, d', c) && StatusEffect(d[c.output := content], d', c, p)
    && (c.output in d' && c.output != DeliveryFile(c.id) ==> d'[c.output] == content || d'[c.output].Bytes?)
  }

  lemma WriteOutputEffect(d: Disk, c: AcceptCall, p: Proposal, content: File)
    requires c.output !in d && c.output != ProposalFile(c.id)
    ensures AcceptEffect(d, WriteOutput(d, c, p, content).0, c, p, content)
  {
    if c.fates.open.Done? && c.fates.write.Done? { DeliverEffect(d[c.output := content], c, p); }
  }

  lemma EffectMovesStatus(d: Disk, d': Disk, c: AcceptCall, p: Proposal, content: File)
    requires AcceptEffect(d, d', c, p, content) && Load(d, c.id) == Ok(p) && p.status.Proposed? && c.output !in d
    ensures StatusMoves(d, d', c.id) && OthersKept(d, d', c.id)
  {
    forall q | q in d && !OwnFile(c.id, q) ensures q in d' && d'[q] == d[q] { assert SameAt(d, d', q); }
  }

  lemma EffectKeepsText(d: Disk, d': Disk, c: AcceptCall, p: Proposal, content: File)
    requires AcceptEffect(d, d', c, p, content) && SchemasAreText(d) && content.Bytes? && c.output !in d
    ensures SchemasAreText(d')
    ensures forall i: string | i != c.id :: StatusOf(d', i) == StatusOf(d, i)
  {
    forall i: string | SchemaFile(i) in d' ensures d'[SchemaFile(i)].Bytes? {
      assert SchemaFile(i) != c.output ==> SameAt(d, d', SchemaFile(i));
    }
    forall i: string | i != c.id ensures StatusOf(d', i) == StatusOf(d, i) {
      assert ProposalFile(i) != c.output ==> SameAt(d, d', ProposalFile(i));
    }
  }

  lemma EffectIsBacked(d: Disk, d': Disk, c: AcceptCall, p: Proposal, content: File)
    requires AcceptEffect(d, d', c, p, content) && Load(d, c.id) == Ok(p) && p.status.Proposed? && c.output !in d
    requires SchemaFile(c.id) in d && content == d[SchemaFile(c.id)]
    ensures Backed(d', c.id)
  {
    assert SameAt(d, d', SchemaFile(c.id));
  }

  lemma EffectIsGood(d: Disk, d': Disk, c: AcceptCall, p: Proposal, content: File)
    requires AcceptEffect(d, d', c, p, content) && Load(d, c.id) == Ok(p) && p.status.Proposed? && c.output !in d
    requires SchemaFile(c.id) in d && content == d[SchemaFile(c.id)]
    ensures GoodStep(d, d', c.id)
  {
    EffectMovesStatus(d, d', c, p, content);
    if SchemasAreText(d) {
      EffectKeepsText(d, d', c, p, content);
      EffectIsBacked(d, d', c, p, content);
      forall i: string | AllBacked(d) && i != c.id ensures Backed(d', i) {
        assert Backed(d, i);
        OthersStayBacked(d, d', c.id, i);
      }
    }
  }

  /** A command that changes nothing but the proposal's own files, by name. */
  lemma OwnChangesAreGood(d: Disk, d': Disk, id: string)
    requires forall p | !OwnFile(id, p) :: SameAt(d, d', p)
    requires StatusMoves(d, d', id) && (StatusOf(d', id).Some? ==> StatusOf(d, id).Some?)
    requires Backed(d, id) ==> Backed(d', id)
    ensures GoodStep(d, d', id)
  {
    forall p | p in d && !OwnFile(id, p) ensures p in d' && d'[p] == d[p] { assert SameAt(d, d', p); }
    forall i: string | i != id ensures StatusOf(d', i) == StatusOf(d, i) { assert SameAt(d, d', ProposalFile(i)); }
    forall i: string | SchemaFile(i) in d' ensures SchemaFile(i) in d && d'[SchemaFile(i)] == d[SchemaFile(i)] {
      assert SameAt(d, d', SchemaFile(i));
    }
    forall i: string | AllBacked(d) && i != id ensures Backed(d', i) {
      assert Backed(d, i);
      OthersStayBacked(d, d', id, i);
    }
    assert Backed(d, id) ==> Backed(d', id);
  }

  lemma StaleIsGood(d: Disk, id: string, p: Proposal)
    requires Load(d, id) == Ok(p) && !p.status.Stale?
    ensures GoodStep(d, WithStatus(d, id, p, Stale), id)
  {
    OwnChangesAreGood(d, WithStatus(d, id, p, Stale), id);
  }

  lemma NothingIsGood(d: Disk, id: string)
    ensures GoodStep(d, d, id)
  {
  }

  lemma AcceptIsGood(d: Disk, c: AcceptCall)
    ensures GoodStep(d, AcceptStep(d, c).0, c.id)
  {
    var d' := AcceptStep(d, c).0;
    NothingIsGood(d, c.id);
    if d' != d {
      var p := Load(d, c.id).value;
      if !(p.hashes <= c.current.value) {
        StaleIsGood(d, c.id, p);
      } else {
        WriteOutputEffect(d, c, p, d[SchemaFile(c.id)]);
        EffectIsGood(d, d', c, p, d[SchemaFile(c.id)]);
      }
    }
  }

  // ---- rejection and measurement ----

  lemma RejectIsGood(d: Disk, c: RejectCall)
    ensures GoodStep(d, RejectStep(d, c).0, c.id)
  {
    var d' := RejectStep(d, c).0;
    NothingIsGood(d, c.id);
    if d' != d { OwnChangesAreGood(d, d', c.id); }
  }

  /** A measurement leaves the delivery as it is, and outputs that are no proposal file. */
  lemma RecordKeepsDelivery(d: Disk, d': Disk, id: string)
    requires Delivered(d, id) && forall p | p != ProposalFile(id) && p != EvaluationFile(id) :: SameAt(d, d', p)
    ensures Delivered(d', id)
  {
    assert SameAt(d, d', DeliveryFile(id)) && SameAt(d, d', SchemaFile(id));
    var output := d[DeliveryFile(id)].delivery.output;
    if IsOutput(output) { assert SameAt(d, d', output); }
  }

  lemma RecordIsGood(d: Disk, c: RecordCall)
    ensures GoodStep(d, RecordStep(d, c).0, c.id)
  {
    var d' := RecordStep(d, c).0;
    NothingIsGood(d, c.id);
    if d' != d {
      if Backed(d, c.id) { RecordKeepsDelivery(d, d', c.id); }
      OwnChangesAreGood(d, d', c.id);
    }
  }

  lemma StepIsGood(d: Disk, c: Command)
    ensures GoodStep(d, Step(d, c).0, Target(c))
  {
    match c
    case DoAccept(a) => AcceptIsGood(d, a);
    case DoReject(r) => RejectIsGood(d, r);
    case DoRecord(m) => RecordIsGood(d, m);
  }

  // ---- whole runs ----

  lemma {:induction false} StatesStep(d: Disk, cs: seq<Command>, i: nat)
    requires i < |cs|
    ensures States(d, cs)[i + 1] == Step(States(d, cs)[i], cs[i]).0
    decreases |cs|
  {
    if i > 0 { StatesStep(Step(d, cs[0]).0, cs[1..], i - 1); }
  }

  /** Every status has its files in every state of every run, whatever fails or stops. */
  lemma {:induction false} EveryStateGood(d: Disk, cs: seq<Command>, i: nat)
    requires Good(d) && i <= |cs|
    ensures Good(States(d, cs)[i])
    decreases |cs|
  {
    if i > 0 {
      StepIsGood(d, cs[0]);
      EveryStateGood(Step(d, cs[0]).0, cs[1..], i - 1);
    }
  }

  lemma InitialIsGood(d: Disk)
    requires Initial(d)
    ensures Good(d)
  {
  }

  /** From published proposals: accepted and measured are delivered, measured is evaluated, rejected is decided. */
  lemma ReachableIsBacked(d: Disk, cs: seq<Command>, i: nat, id: string)
    requires Initial(d) && i <= |cs|
    ensures Backed(States(d, cs)[i], id) && SchemasAreText(States(d, cs)[i])
  {
    InitialIsGood(d);
    EveryStateGood(d, cs, i);
  }

  /** The file is kept: it is there, as it was. */
  predicate Kept(d: Disk, d': Disk, p: Path) { p in d ==> p in d' && d'[p] == d[p] }

  lemma StepKeeps(d: Disk, c: Command, p: Path)
    requires IsOutput(p) || p.SchemaFile?
    ensures Kept(d, Step(d, c).0, p)
  {
    StepIsGood(d, c);
    assert !OwnFile(Target(c), p);
  }

  /** Between two moments of a run: every file that is no proposal's own, and every generated schema, stays as it is. */
  lemma {:induction false} RunKeeps(d: Disk, cs: seq<Command>, i: nat, j: nat, p: Path)
    requires i <= j <= |cs| && (IsOutput(p) || p.SchemaFile?)
    ensures Kept(States(d, cs)[i], States(d, cs)[j], p)
    decreases j - i
  {
    if i < j {
      RunKeeps(d, cs, i, j - 1, p);
      StatesStep(d, cs, j - 1);
      StepKeeps(States(d, cs)[j - 1], cs[j - 1], p);
    }
  }

  /** What a status can become over any number of commands. */
  predicate Reaches(a: Status, b: Status) {
    match a
    case Proposed => true
    case Accepted => b.Accepted? || b.Measured? || b.Stale?
    case Measured => b.Measured? || b.Stale?
    case Rejected => b.Rejected? || b.Stale?
    case Stale => b.Stale?
  }

  function StatusAt(d: Disk, cs: seq<Command>, i: nat, id: string): Option<Status>
    requires i <= |cs|
  {
    StatusOf(States(d, cs)[i], id)
  }

  lemma AdjacentAllowed(d: Disk, cs: seq<Command>, i: nat, id: string)
    requires i < |cs| && StatusAt(d, cs, i, id).Some?
    ensures StatusAt(d, cs, i + 1, id).Some?
    ensures Allowed(StatusAt(d, cs, i, id).value, StatusAt(d, cs, i + 1, id).value)
  {
    var a, c := States(d, cs)[i], cs[i];
    StatesStep(d, cs, i);
    StepIsGood(a, c);
    if id != Target(c) { assert !OwnFile(Target(c), ProposalFile(id)); }
  }

  /**
   * The status history of any run: stale is never left, rejected only becomes stale,
   * an accepted or measured proposal is never proposed or rejected again.
   */
  lemma {:induction false} HistoryFollowsLifecycle(d: Disk, cs: seq<Command>, i: nat, j: nat, id: string)
    requires i <= j <= |cs| && StatusAt(d, cs, i, id).Some?
    ensures StatusAt(d, cs, j, id).Some? && Reaches(StatusAt(d, cs, i, id).value, StatusAt(d, cs, j, id).value)
    decreases j - i
  {
    if i < j {
      HistoryFollowsLifecycle(d, cs, i, j - 1, id);
      AdjacentAllowed(d, cs, j - 1, id);
    }
  }

  /** Commands make no new proposals. */
  lemma {:induction false} ProposalsAreOld(d: Disk, cs: seq<Command>, i: nat, id: string)
    requires Initial(d) && i <= |cs| && StatusAt(d, cs, i, id).Some?
    ensures StatusAt(d, cs, 0, id) == Some(Proposed)
    decreases i
  {
    if i > 0 {
      ReachableIsBacked(d, cs, i - 1, id);
      StatesStep(d, cs, i - 1);
      StepIsGood(States(d, cs)[i - 1], cs[i - 1]);
      ProposalsAreOld(d, cs, i - 1, id);
    }
  }

  /** Whoever is measured was accepted at some earlier moment. */
  lemma {:induction false} MeasuredWasAccepted(d: Disk, cs: seq<Command>, j: nat, id: string) returns (k: nat)
    requires Initial(d) && j <= |cs| && StatusAt(d, cs, j, id) == Some(Measured)
    ensures k < j && StatusAt(d, cs, k, id) == Some(Accepted)
    decreases j
  {
    ProposalsAreOld(d, cs, j, id);
    HistoryFollowsLifecycle(d, cs, 0, j - 1, id);
    AdjacentAllowed(d, cs, j - 1, id);
    if StatusAt(d, cs, j - 1, id) == Some(Accepted) {
      k := j - 1;
    } else {
      k := MeasuredWasAccepted(d, cs, j - 1, id);
    }
  }

  /**
   * While the proposal is accepted or measured its delivery can be loaded, and an output
   * that is no proposal file holds the generated schema, then and in every later state.
   */
  lemma DeliveryCanBeLoaded(d: Disk, cs: seq<Command>, i: nat, j: nat, id: string)
    requires Initial(d) && i <= j <= |cs|
    requires StatusAt(d, cs, i, id) == Some(Accepted) || StatusAt(d, cs, i, id) == Some(Measured)
    ensures var a, b := States(d, cs)[i], States(d, cs)[j];
            && LoadDelivery(a, id).Ok? && SchemaFile(id) in b
            && var output := LoadDelivery(a, id).value.output;
               IsOutput(output) ==> output in b && b[output] == b[SchemaFile(id)]
  {
    ReachableIsBacked(d, cs, i, id);
    var a := States(d, cs)[i];
    RunKeeps(d, cs, i, j, SchemaFile(id));
    if IsOutput(a[DeliveryFile(id)].delivery.output) { RunKeeps(d, cs, i, j, a[DeliveryFile(id)].delivery.output); }
  }

  // ---- outputs that are proposal files ----

  /** A new output holds the schema when acceptance returns, unless it is the proposal's own delivery record. */
  lemma AcceptedOutputExactly(d: Disk, c: AcceptCall)
    requires AcceptStep(d, c).1 == Returned(Accepted) && c.output !in d
    requires SchemasAreText(d)
    ensures SchemaFile(c.id) in d && c.output in AcceptStep(d, c).0
    ensures AcceptStep(d, c).0[c.output] == d[SchemaFile(c.id)] <==> c.output != DeliveryFile(c.id)
  {
  }

  predicate AllDone(f: AcceptFates) {
    && f.stale.Done? && f.compare.Done? && f.readSchema.Done? && f.open.Done? && f.write.Done?
    && f.delivery.Done? && f.proposal.Done?
  }

  /** Nothing stands in the way of this acceptance. */
  predicate CanAccept(d: Disk, c: AcceptCall) {
    && StatusOf(d, c.id) == Some(Proposed) && d[ProposalFile(c.id)].proposal.hasSchema && SchemaFile(c.id) in d
    && c.output !in d && c.clock.Some? && AllDone(c.fates)
    && c.current.Some? && d[ProposalFile(c.id)].proposal.hashes <= c.current.value
  }

  /** Accepted to its own evaluation.json, the output is gone with the first measurement. */
  lemma EvaluationOutputIsReplaced(d: Disk, c: AcceptCall, m: RecordCall)
    requires CanAccept(d, c) && c.output == EvaluationFile(c.id)
    requires m.id == c.id && m.evaluation.Done? && m.proposal.Done?
    ensures var d1 := AcceptStep(d, c).0;
            var d2 := RecordStep(d1, m).0;
            && AcceptStep(d, c).1 == Returned(Accepted) && d1[c.output] == d[SchemaFile(c.id)]
            && RecordStep(d1, m).1 == Returned(Measured)
            && LoadDelivery(d2, c.id).Ok? && LoadDelivery(d2, c.id).value.output == c.output
            && d2[c.output] == EvaluationJson(m.payload)
  {
  }

  // ---- one command: undo, repetition, and what a stop leaves behind ----

  /**
   * A failed acceptance whose clean-up works leaves the disk as it was, except that a
   * delivery record left by an earlier stopped acceptance is removed too.
   */
  lemma FailedAcceptIsUndone(d: Disk, c: AcceptCall)
    requires AcceptStep(d, c).1 == Raised(CannotPersist) || AcceptStep(d, c).1 == Raised(BadDelivery)
    requires c.fates.unlinkPartial.Done? && c.fates.unlinkOutput.Done? && c.fates.unlinkDelivery.Done?
    ensures AcceptStep(d, c).0 == d || AcceptStep(d, c).0 == d - {DeliveryFile(c.id)}
    ensures DeliveryFile(c.id) !in d ==> AcceptStep(d, c).0 == d
  {
    var d' := AcceptStep(d, c).0;
    if d' != d {
      Removed(d, c.output, Bytes(c.partial));
      DeliverUndone(d, c, Load(d, c.id).value, d[SchemaFile(c.id)]);
    }
    if DeliveryFile(c.id) !in d { assert d - {DeliveryFile(c.id)} == d; }
  }

  lemma Removed(d: Disk, p: Path, f: File)
    requires p !in d
    ensures d[p := f] - {p} == d
  {
  }

  lemma DeliverUndone(d: Disk, c: AcceptCall, p: Proposal, content: File)
    requires c.output !in d && c.fates.unlinkOutput.Done? && c.fates.unlinkDelivery.Done?
    ensures var (d', r) := Deliver(d[c.output := content], c, p); r.Raised? ==> d' == d - {DeliveryFile(c.id)}
  {
    var path := DeliveryFile(c.id);
    Removed(d, c.output, content);
    if c.clock.Some? {
      var g := DeliveryJson(Delivery(c.id, c.output, c.clock.value));
      assert d[c.output := content][path := g] - {c.output} - {path} == d - {path};
    }
  }

  /** Accepting again with the same output changes nothing, unless that output was overwritten by the delivery record. */
  lemma AcceptIsIdempotent(d: Disk, c: AcceptCall, again: AcceptCall)
    requires AcceptStep(d, c).1 == Returned(Accepted) && SchemasAreText(d)
    requires again.id == c.id && again.output == c.output && again.ifIdentical && again.current == c.current
             && AllDone(again.fates)
    ensures AcceptStep(AcceptStep(d, c).0, again) == (AcceptStep(d, c).0, Returned(Accepted))
            <==> c.output in d || c.output != DeliveryFile(c.id)
  {
  }

  /**
   * An acceptance that stops after creating the output cannot be repeated for that
   * output: whatever the next call's arguments, it does not return.
   */
  lemma StoppedAcceptBlocksItsOutput(d: Disk, c: AcceptCall, again: AcceptCall)
    requires AcceptStep(d, c).1 == Stopped && c.output in AcceptStep(d, c).0 && c.output !in d
    requires again.id == c.id && again.output == c.output
    ensures !AcceptStep(AcceptStep(d, c).0, again).1.Returned?
    ensures again.current == c.current && AllDone(again.fates)
            ==> AcceptStep(AcceptStep(d, c).0, again).1 == Raised(Conflict)
  {
  }

  /** Rejecting or recording the same thing twice changes nothing the second time. */
  lemma RepeatsChangeNothing(d: Disk, r: RejectCall, m: RecordCall)
    ensures RejectStep(d, r).1.Returned? ==> RejectStep(RejectStep(d, r).0, r) == RejectStep(d, r)
    ensures RecordStep(d, m).1.Returned? ==> RecordStep(RecordStep(d, m).0, m) == RecordStep(d, m)
  {
  }

  // ---- rejections that wrote the decision, but not the status ----

  /** The decision is written, and the status write fails or the process stops before it. */
  predicate LeavesDecision(d: Disk, c: RejectCall) {
    && !Blank(c.reason) && Load(d, c.id).Ok? && Load(d, c.id).value.status.Proposed?
    && c.decision.Done? && !c.proposal.Done?
  }

  function WithDecision(d: Disk, id: string, reason: string): Disk { d[DecisionFile(id) := DecisionJson(Strip(reason))] }

  lemma UndoIgnoresDecision(d: Disk, c: AcceptCall, x: string)
    requires c.output != DecisionFile(c.id)
    ensures Undo(WithDecision(d, c.id, x), c) == (WithDecision(Undo(d, c).0, c.id, x), Undo(d, c).1)
  {
    var path, f := DecisionFile(c.id), DecisionJson(Strip(x));
    assert d[path := f] - {c.output} == (d - {c.output})[path := f];
    assert d[path := f] - {DeliveryFile(c.id)} == (d - {DeliveryFile(c.id)})[path := f];
    var d1 := d - {c.output};
    assert d1[path := f] - {DeliveryFile(c.id)} == (d1 - {DeliveryFile(c.id)})[path := f];
  }

  lemma Swapped(d: Disk, p: Path, f: File, q: Path, g: File)
    requires p != q
    ensures d[p := f][q := g] == d[q := g][p := f]
  {
  }

  lemma DeliverIgnoresDecision(d: Disk, c: AcceptCall, p: Proposal, x: string)
    requires c.output != DecisionFile(c.id)
    ensures Deliver(WithDecision(d, c.id, x), c, p) == (WithDecision(Deliver(d, c, p).0, c.id, x), Deliver(d, c, p).1)
  {
    var path, f := DecisionFile(c.id), DecisionJson(Strip(x));
    UndoIgnoresDecision(d, c, x);
    if c.clock.Some? {
      var delivery, g := DeliveryFile(c.id), DeliveryJson(Delivery(c.id, c.output, c.clock.value));
      Swapped(d, path, f, delivery, g);
      UndoIgnoresDecision(d[delivery := g], c, x);
      Swapped(d[delivery := g], path, f, ProposalFile(c.id), ProposalJson(p.(status := Accepted)));
    }
  }

  /** Acceptance neither reads nor writes the decision, if that is not its output. */
  lemma AcceptIgnoresDecision(d: Disk, c: AcceptCall, x: string)
    requires c.output != DecisionFile(c.id)
    ensures AcceptStep(WithDecision(d, c.id, x), c) == (WithDecision(AcceptStep(d, c).0, c.id, x), AcceptStep(d, c).1)
  {
    var path, f := DecisionFile(c.id), DecisionJson(Strip(x));
    if Load(d, c.id).Ok? {
      var p := Load(d, c.id).value;
      Swapped(d, path, f, ProposalFile(c.id), ProposalJson(p.(status := Stale)));
      if SchemaFile(c.id) in d && c.output !in d {
        WriteIgnoresDecision(d, c, p, d[SchemaFile(c.id)], x);
      }
    }
  }

  lemma WriteIgnoresDecision(d: Disk, c: AcceptCall, p: Proposal, content: File, x: string)
    requires c.output != DecisionFile(c.id)
    ensures WriteOutput(WithDecision(d, c.id, x), c, p, content)
            == (WithDecision(WriteOutput(d, c, p, content).0, c.id, x), WriteOutput(d, c, p, content).1)
  {
    var path, f := DecisionFile(c.id), DecisionJson(Strip(x));
    Swapped(d, path, f, c.output, content);
    Swapped(d, path, f, c.output, Bytes(c.partial));
    var d1 := d[c.output := Bytes(c.partial)];
    assert d1[path := f] - {c.output} == (d1 - {c.output})[path := f];
    DeliverIgnoresDecision(d[c.output := content], c, p, x);
  }

  /**
   * A rejection that leaves its decision changes nothing else, so whatever acceptance would
   * have done, it still does: the rejected proposal can be accepted like any other. Only
   * the decision itself is no output any more.
   */
  lemma HalfRejectedIsAcceptable(d: Disk, r: RejectCall, c: AcceptCall)
    requires LeavesDecision(d, r) && c.id == r.id
    ensures !RejectStep(d, r).1.Returned? && RejectStep(d, r).0 == WithDecision(d, r.id, r.reason)
    ensures c.output != DecisionFile(c.id) ==>
              AcceptStep(RejectStep(d, r).0, c) == (WithDecision(AcceptStep(d, c).0, c.id, r.reason), AcceptStep(d, c).1)
    ensures c.output == DecisionFile(c.id) ==> !AcceptStep(RejectStep(d, r).0, c).1.Returned?
  {
    if c.output != DecisionFile(c.id) { AcceptIgnoresDecision(d, c, r.reason); }
  }

  /** With nothing in the way, the rejected proposal is accepted, its decision beside it. */
  lemma HalfRejectedIsAccepted(d: Disk, r: RejectCall, c: AcceptCall)
    requires LeavesDecision(d, r) && c.id == r.id && CanAccept(d, c) && c.output != DecisionFile(c.id)
    ensures var (d', reply) := AcceptStep(RejectStep(d, r).0, c);
            && reply == Returned(Accepted) && StatusOf(d', r.id) == Some(Accepted)
            && DecisionFile(r.id) in d' && d'[DecisionFile(r.id)] == DecisionJson(Strip(r.reason))
  {
    HalfRejectedIsAcceptable(d, r, c);
  }

  // ---- decisions of proposals that are not rejected ----

  predicate Decided(d: Disk, id: string) { DecisionFile(id) in d && d[DecisionFile(id)].DecisionJson? }

  lemma AcceptDecides(d: Disk, c: AcceptCall, id: string)
    requires SchemasAreText(d)
    ensures Decided(AcceptStep(d, c).0, id) <==> Decided(d, id)
    ensures Decided(d, id) ==> AcceptStep(d, c).0[DecisionFile(id)] == d[DecisionFile(id)]
  {
    var d', path := AcceptStep(d, c).0, DecisionFile(id);
    if d' != d {
      var p := Load(d, c.id).value;
      if p.hashes <= c.current.value {
        WriteOutputEffect(d, c, p, d[SchemaFile(c.id)]);
        assert path != c.output ==> SameAt(d, d', path);
      }
    }
  }

  /** Only a rejection of this proposal writes its decision, and then with the status or leaving it. */
  lemma DecisionStep(d: Disk, c: Command, id: string)
    requires SchemasAreText(d)
    ensures var d' := Step(d, c).0;
            && (Decided(d, id) ==> Decided(d', id))
            && (Decided(d', id) ==>
                  || (Decided(d, id) && d'[DecisionFile(id)] == d[DecisionFile(id)])
                  || StatusOf(d', id) == Some(Rejected)
                  || (c.DoReject? && c.reject.id == id && LeavesDecision(d, c.reject)
                      && d'[DecisionFile(id)] == DecisionJson(Strip(c.reject.reason))))
  {
    if c.DoAccept? { AcceptDecides(d, c.accept, id); }
  }

  predicate Pending(s: Option<Status>) { s == Some(Proposed) || s == Some(Accepted) || s == Some(Measured) }

  /** Command k of the run is a rejection of this proposal that leaves its decision. */
  predicate LeftAt(d: Disk, cs: seq<Command>, k: nat, id: string)
    requires k < |cs|
  {
    cs[k].DoReject? && cs[k].reject.id == id && LeavesDecision(States(d, cs)[k], cs[k].reject)
  }

  lemma WasPending(d: Disk, cs: seq<Command>, j: nat, id: string)
    requires Initial(d) && 0 < j <= |cs| && Pending(StatusAt(d, cs, j, id))
    ensures Pending(StatusAt(d, cs, j - 1, id))
  {
    ProposalsAreOld(d, cs, j, id);
    HistoryFollowsLifecycle(d, cs, 0, j - 1, id);
    AdjacentAllowed(d, cs, j - 1, id);
  }

  /**
   * In any run from published proposals, an accepted or measured proposal with a decision
   * was once rejected by a call that left it: the decision is the reason given there.
   */
  lemma {:induction false} DecisionWasLeft(d: Disk, cs: seq<Command>, j: nat, id: string) returns (k: nat)
    requires Initial(d) && j <= |cs| && Pending(StatusAt(d, cs, j, id)) && Decided(States(d, cs)[j], id)
    ensures k < j && LeftAt(d, cs, k, id)
    ensures States(d, cs)[j][DecisionFile(id)] == DecisionJson(Strip(cs[k].reject.reason))
    decreases j
  {
    ProposalsAreOld(d, cs, j, id);
    assert j > 0 by { assert ProposalFile(id) in d ==> Published(d, id); }
    WasPending(d, cs, j, id);
    ReachableIsBacked(d, cs, j - 1, id);
    StatesStep(d, cs, j - 1);
    DecisionStep(States(d, cs)[j - 1], cs[j - 1], id);
    if Decided(States(d, cs)[j - 1], id) && States(d, cs)[j][DecisionFile(id)] == States(d, cs)[j - 1][DecisionFile(id)] {
      k := DecisionWasLeft(d, cs, j - 1, id);
    } else {
      k := j - 1;
    }
  }

  lemma DecisionStaysOnce(d: Disk, cs: seq<Command>, j: nat, id: string)
    requires Initial(d) && j < |cs| && Decided(States(d, cs)[j], id)
    ensures Decided(States(d, cs)[j + 1], id)
  {
    ReachableIsBacked(d, cs, j, id);
    StatesStep(d, cs, j);
    DecisionStep(States(d, cs)[j], cs[j], id);
  }

  lemma {:induction false} DecisionStays(d: Disk, cs: seq<Command>, i: nat, j: nat, id: string)
    requires Initial(d) && i <= j <= |cs| && Decided(States(d, cs)[i], id)
    ensures Decided(States(d, cs)[j], id)
    decreases j
  {
    if i < j {
      DecisionStays(d, cs, i, j - 1, id);
      DecisionStaysOnce(d, cs, j - 1, id);
    }
  }

  /** Decision and status disagree exactly after a rejection that left its decision. */
  lemma DecisionsDisagreeExactly(d: Disk, cs: seq<Command>, j: nat, id: string)
    requires Initial(d) && j <= |cs| && Pending(StatusAt(d, cs, j, id))
    ensures Decided(States(d, cs)[j], id) <==> exists k: nat :: k < j && LeftAt(d, cs, k, id)
  {
    if Decided(States(d, cs)[j], id) {
      var k := DecisionWasLeft(d, cs, j, id);
    }
    forall k: nat | k < j && LeftAt(d, cs, k, id) ensures Decided(States(d, cs)[j], id) {
      StatesStep(d, cs, k);
      DecisionStays(d, cs, k + 1, j, id);
    }
  }
}
