/**
What holds over whole runs of the control plane, restarts included: one command per proposal, the
command on the record, the automatic budget, and the conservation of queued commands.
*/
module ServerRuns {
  import opened Options
  import opened Schema
  import Crypto
  import Actuator
  import Templates
  import Policy
  import Store
  import CommandQueue
  import opened Server

  /** A run from the first start on a given table, latest event outermost. */
  datatype Run = Start(cfg: Config, rows: Store.Table) | Then(before: Run, event: Event)

  function At(r: Run): State {
    match r
    case Start(cfg, rows) => State(cfg, map[], Store.At(Store.Start(rows)), map[])
    case Then(before, e) => Step(At(before), e).0
  }

  /** Every command ever queued, in order, across restarts. */
  function Issued(r: Run): seq<Issue> {
    match r
    case Start(_, _) => []
    case Then(before, e) =>
      var issue := Step(At(before), e).1;
      if issue.Some? then Issued(before) + [issue.value] else Issued(before)
  }

  /** Proposal ids are new when they are made up. */
  predicate FreshProposals(r: Run) {
    r.Then? ==> FreshProposals(r.before) && (r.event.Prepare? ==> r.event.ids.proposal !in At(r.before).store.rows)
  }

  /** An approval that queued its command without the record taking the decision. */
  predicate ApprovalLost(s: State, e: Event) { e.Approve? && Approvable(s, e).Some? && e.write.Failed? }

  predicate NoApprovalLost(r: Run) { r.Then? ==> NoApprovalLost(r.before) && !ApprovalLost(At(r.before), r.event) }

  // ---- one command per proposal ----

  /** The record of the issue's proposal is decided and names its command. */
  ghost predicate OnRecord(rows: Store.Table, i: Issue) {
    && i.proposal in rows && !Store.IsPending(rows, i.proposal)
    && rows[i.proposal].commandId == Some(i.env.payload.commandId)
    && rows[i.proposal].signature == i.env.sig
    && rows[i.proposal].proposal.agentId == i.env.payload.agentId
  }

  ghost predicate AllOnRecord(rows: Store.Table, issued: seq<Issue>) {
    forall k :: 0 <= k < |issued| ==> OnRecord(rows, issued[k])
  }

  ghost predicate OncePerProposal(issued: seq<Issue>) {
    forall j, k :: 0 <= j < k < |issued| ==> issued[j].proposal != issued[k].proposal
  }

  /** Each server event is at most one operation of the store. */
  function StoreOp(s: State, e: Event): Option<Store.Op> {
    match e
    case Prepare(f, ids, now, issued, write) =>
      (match Prepared(s.cfg, f)
       case None => None
       case Some((t, values)) =>
         var p := ProposalFor(f, ids, t, values);
         match Policy.Step(s.cfg.policy, s.hits, CallFor(f, t, now)).0.decision
         case Forbid => None
         case Approve => Some(Store.Insert(p, f.signature, write))
         case Auto =>
           match Command(s.cfg, t, p, ids, issued, PolicyAuto)
           case Err(_) => None
           case Ok(env) => Some(Store.InsertAutoApproved(p, env.payload.commandId, env.sig, f.signature, write)))
    case Approve(id, _, _, recorded, user, _, read, write) =>
      (match Approvable(s, e)
       case None => None
       case Some(env) => Some(Store.Approve(id, Human(user, recorded), env.payload.commandId, env.sig, read, write)))
    case Reject(id, user, at, read, write) => Some(Store.Reject(id, user, at, None, read, write))
    case Pull(_) => None
    case Report(report, write) => Some(Store.RecordResult(report, write))
    case Restart(_) => Some(Store.Restart)
  }

  lemma StepIsStoreOp(s: State, e: Event)
    ensures Step(s, e).0.store == (match StoreOp(s, e) case None => s.store case Some(op) => Store.Next(s.store, op))
  {
    hide Prepared, Command, Policy.Step, Store.Next, Approvable;
  }

  /** The store's part of a server run. */
  function StoreRun(r: Run): Store.Run {
    match r
    case Start(_, rows) => Store.Start(rows)
    case Then(before, e) =>
      match StoreOp(At(before), e)
      case None => StoreRun(before)
      case Some(op) => Store.Then(StoreRun(before), op)
  }

  lemma {:induction false} StoreFollows(r: Run)
    ensures Store.At(StoreRun(r)) == At(r).store
  {
    hide Step, StoreOp, Store.Next;
    match r
    case Start(_, _) =>
    case Then(before, e) =>
      StoreFollows(before);
      StepIsStoreOp(At(before), e);
  }

  lemma OldIssuesStayOnRecord(s: State, e: Event, issued: seq<Issue>)
    requires AllOnRecord(s.store.rows, issued)
    ensures AllOnRecord(Step(s, e).0.store.rows, issued)
  {
    hide Step, StoreOp, Store.Next;
    StepIsStoreOp(s, e);
    var op := StoreOp(s, e);
    if op.Some? {
      forall k | 0 <= k < |issued| ensures OnRecord(Step(s, e).0.store.rows, issued[k]) {
        assert OnRecord(s.store.rows, issued[k]);
        Store.DecidedKeepsItsCommand(s.store, op.value, issued[k].proposal);
      }
    }
  }

  /** What a queued command has to do with the event that queued it. */
  lemma NewIssue(s: State, e: Event)
    requires Step(s, e).1.Some?
    requires e.Prepare? ==> e.ids.proposal !in s.store.rows
    requires !ApprovalLost(s, e)
    ensures OnRecord(Step(s, e).0.store.rows, Step(s, e).1.value)
    ensures Step(s, e).1.value.proposal !in s.store.rows || Store.IsPending(s.store.rows, Step(s, e).1.value.proposal)
  {
    hide Prepared, Policy.Step;
    if e.Prepare? { NewAutoIssue(s, e); } else { NewHumanIssue(s, e); }
  }

  lemma BuiltFor(cfg: Config, t: Templates.Template, p: Store.Proposal, ids: Ids, issued: int, approval: ApprovalRef)
    requires Command(cfg, t, p, ids, issued, approval).Ok?
    ensures var env := Command(cfg, t, p, ids, issued, approval).value;
            && env.payload.commandId == ids.command && env.payload.agentId == p.agentId && env.payload.approval == approval
            && env.payload.riskTier == t.riskTier && env.payload.templateId == t.id && env.payload.templateVersion == t.version
            && env.payload.nonce == ids.nonce && env.payload.issuedAt == issued && env.payload.rollback == t.rollback
            && env.payload.expiresAt == issued + (if cfg.ttl > 1 then cfg.ttl else 1)
            && env == Crypto.Sign(cfg.signer, env.payload)
  {
    hide Templates.ResolveSteps, Templates.ResolveConditions, Templates.ResolveVerify;
  }

  lemma NewAutoIssue(s: State, e: Event)
    requires e.Prepare? && Step(s, e).1.Some? && e.ids.proposal !in s.store.rows
    ensures OnRecord(Step(s, e).0.store.rows, Step(s, e).1.value)
    ensures Step(s, e).1.value.proposal == e.ids.proposal
  {
    hide Prepared, Policy.Step, Command;
    var (t, values) := Prepared(s.cfg, e.fault).value;
    var p := ProposalFor(e.fault, e.ids, t, values);
    BuiltFor(s.cfg, t, p, e.ids, e.issued, PolicyAuto);
  }

  lemma NewHumanIssue(s: State, e: Event)
    requires !e.Prepare? && Step(s, e).1.Some? && !ApprovalLost(s, e)
    ensures OnRecord(Step(s, e).0.store.rows, Step(s, e).1.value)
    ensures Store.IsPending(s.store.rows, Step(s, e).1.value.proposal)
  {
    hide Command;
    assert e.Approve?;
    var p := s.store.rows[e.id].proposal;
    var t := Get(s.cfg.templates, p.templateId).value;
    BuiltFor(s.cfg, t, p, e.ids, e.issued, Human(e.user, e.issued));
  }

  // ---- what one fault and one approval lead to ----

  /** What a fault leads to whose record is acknowledged under a new id, while the cache agrees with the
      table, as it does after any run without drift. Nothing is recorded for it when no template can be prepared, when policy forbids, or when a pending proposal
      asks for the same already. Otherwise it is raised for approval, or, where policy decides
      automatically and the command can be built, recorded as approved and queued for the fault's agent. */
  lemma FaultLeadsTo(s: State, e: Event)
    requires e.Prepare? && e.write.Answered? && e.ids.proposal !in s.store.rows && Store.InSync(s.store)
    ensures var f := e.fault;
            (Step(s, e).0.store.rows, Step(s, e).1) ==
            match Prepared(s.cfg, f)
            case None => (s.store.rows, None)
            case Some((t, values)) =>
              var p := Store.Proposal(e.ids.proposal, f.agentId, f.host, t.id, values);
              var decision := Policy.Step(s.cfg.policy, s.hits, Policy.Call(f.host, t.riskTier, t.id, e.now)).0.decision;
              if Store.AskedAlready(s.store.rows, p) then (s.store.rows, None)
              else if decision == Policy.Approve then
                (s.store.rows[p.id := Store.Row(p, Store.Pending, None, None, None, f.signature)], None)
              else if decision == Policy.Auto && Command(s.cfg, t, p, e.ids, e.issued, PolicyAuto).Ok? then
                var env := Command(s.cfg, t, p, e.ids, e.issued, PolicyAuto).value;
                (s.store.rows[p.id := Store.Row(p, Store.Approved(PolicyAuto), Some(e.ids.command), env.sig, None, f.signature)],
                 Some(Issue(p.id, f.host, env, e.now)))
              else (s.store.rows, None)
  {
    hide Prepared, Command, Policy.Step, Store.AskedAlready, Store.InSync, Store.Key, AutoExecuted;
    if Prepared(s.cfg, e.fault).Some? {
      var (t, values) := Prepared(s.cfg, e.fault).value;
      var p := ProposalFor(e.fault, e.ids, t, values);
      Store.AskedAlreadyIsCached(s.store, p);
      AutoLeadsTo(s.(hits := Policy.Step(s.cfg.policy, s.hits, CallFor(e.fault, t, e.now)).1), t, p, e);
    }
  }

  lemma AutoLeadsTo(s: State, t: Templates.Template, p: Store.Proposal, e: Event)
    requires e.Prepare? && e.write.Answered? && p.id !in s.store.rows
    ensures var (built, done) := (Command(s.cfg, t, p, e.ids, e.issued, PolicyAuto), AutoExecuted(s, e.fault, t, p, e));
            if built.Ok? && Store.Key(p) !in s.store.pendingKeys
            then (done.0.store.rows, done.1) ==
                 (s.store.rows[p.id := Store.Row(p, Store.Approved(PolicyAuto), Some(e.ids.command), built.value.sig, None, e.fault.signature)],
                  Some(Issue(p.id, p.host, built.value, e.now)))
            else (done.0.store.rows, done.1) == (s.store.rows, None)
  {
    hide Command, Store.Key;
    if Command(s.cfg, t, p, e.ids, e.issued, PolicyAuto).Ok? { CommandHasItsId(s.cfg, t, p, e.ids, e.issued, PolicyAuto); }
  }

  /** What an approval leads to that gets as far as a command: one for the agent of the pending proposal, from
      the first template with the proposal's template id, in the approver's name, signed by the active key,
      put at the end of that agent's queue; and on the record, if the record takes it, that command and its
      signature. */
  lemma ApprovalLeadsTo(s: State, e: Event)
    requires e.Approve? && Step(s, e).1.Some?
    ensures e.seen && e.id in s.store.rows && s.store.rows[e.id].decision == Store.Pending
    ensures var (was, s', issue) := (s.store.rows[e.id], Step(s, e).0, Step(s, e).1.value);
            var (p, env) := (was.proposal, issue.env);
            && issue == Issue(e.id, p.host, env, e.issued)
            && Get(s.cfg.templates, p.templateId).Some?
            && Command(s.cfg, Get(s.cfg.templates, p.templateId).value, p, e.ids, e.issued, Human(e.user, e.issued)) == Ok(env)
            && env.payload.commandId == e.ids.command && env.payload.nonce == e.ids.nonce && env.payload.agentId == p.agentId
            && env.payload.templateId == p.templateId && env.payload.approval == Human(e.user, e.issued)
            && env.payload.issuedAt == e.issued && env == Crypto.Sign(s.cfg.signer, env.payload)
            && s'.queue == s.queue[p.agentId := (if p.agentId in s.queue then s.queue[p.agentId] else []) + [env]]
            && s'.store.rows ==
               if e.write.Failed? then s.store.rows
               else s.store.rows[e.id := Store.Row(p, Store.Approved(Human(e.user, e.recorded)), Some(e.ids.command), env.sig,
                                                   was.result, was.faultSignature)]
  {
    hide Command;
    var p := s.store.rows[e.id].proposal;
    BuiltFor(s.cfg, Get(s.cfg.templates, p.templateId).value, p, e.ids, e.issued, Human(e.user, e.issued));
    GetIsFirst(s.cfg.templates, p.templateId);
  }

  /** The answer tells what happened: an approval is confirmed exactly when a command was queued, and
      with that command's id; whether the record took it does not show. */
  lemma ApprovedExactlyWhenQueued(s: State, e: Event, command: nat)
    requires e.Approve?
    ensures ReplyTo(s, e) == Approved(command) <==>
            Step(s, e).1.Some? && Step(s, e).1.value.env.payload.commandId == command
    ensures ReplyTo(s, e) == NotFound <==> !e.seen || !Store.IsPending(s.store.rows, e.id)
  {
    hide Command, Store.Next;
    if Step(s, e).1.Some? {
      var p := s.store.rows[e.id].proposal;
      CommandHasItsId(s.cfg, Get(s.cfg.templates, p.templateId).value, p, e.ids, e.issued, Human(e.user, e.issued));
    }
  }

  /** Over every run, restarts and failing reads included, each proposal has at most one command
      ever queued, and it is the one on the proposal's record: as long as ids are fresh and no
      approval fails to be written after its command was queued. */
  lemma {:induction false} OneCommandPerProposal(r: Run)
    requires FreshProposals(r) && NoApprovalLost(r)
    ensures OncePerProposal(Issued(r)) && AllOnRecord(At(r).store.rows, Issued(r))
  {
    hide Step, ApprovalLost;
    match r
    case Start(_, _) =>
    case Then(before, e) =>
      OneCommandPerProposal(before);
      var s := At(before);
      OldIssuesStayOnRecord(s, e, Issued(before));
      if Step(s, e).1.Some? {
        NewIssue(s, e);
        var i := Step(s, e).1.value;
        forall k | 0 <= k < |Issued(before)| ensures Issued(before)[k].proposal != i.proposal {
          assert OnRecord(s.store.rows, Issued(before)[k]);
        }
      }
  }

  /** The proposals with a command queued by an approval that the record did not take. */
  function Lost(r: Run): set<nat> {
    match r
    case Start(_, _) => {}
    case Then(before, e) => if ApprovalLost(At(before), e) then Lost(before) + {e.id} else Lost(before)
  }

  /** None of those was approved once more before it was rejected. */
  predicate NoReapproval(r: Run) {
    r.Then? ==>
      && NoReapproval(r.before)
      && (r.event.Approve? && Approvable(At(r.before), r.event).Some? ==> r.event.id !in Lost(r.before))
  }

  ghost predicate HasIssue(issued: seq<Issue>, id: nat) { exists k :: 0 <= k < |issued| && issued[k].proposal == id }

  /** Every proposal with a command is decided or lost, and every lost one has a command. */
  ghost predicate DecidedOrLost(rows: Store.Table, issued: seq<Issue>, lost: set<nat>) {
    && (forall id :: HasIssue(issued, id) ==> id in rows && (!Store.IsPending(rows, id) || id in lost))
    && (forall id :: id in lost ==> HasIssue(issued, id))
  }

  lemma OneMoreHasIssue(issued: seq<Issue>, i: Issue, id: nat)
    ensures HasIssue(issued + [i], id) <==> HasIssue(issued, id) || id == i.proposal
    ensures OncePerProposal(issued + [i]) <==> OncePerProposal(issued) && !HasIssue(issued, i.proposal)
  {
    var more := issued + [i];
    assert more[|issued|] == i;
    forall k | 0 <= k < |issued| ensures more[k] == issued[k] {}
    if HasIssue(issued, id) {
      var k :| 0 <= k < |issued| && issued[k].proposal == id;
      assert more[k].proposal == id;
    }
    if HasIssue(issued, i.proposal) {
      var k :| 0 <= k < |issued| && issued[k].proposal == i.proposal;
      assert more[k].proposal == more[|issued|].proposal;
    }
    if OncePerProposal(more) {
      forall j, k | 0 <= j < k < |issued| ensures issued[j].proposal != issued[k].proposal {
        assert more[j].proposal != more[k].proposal;
      }
    }
  }

  lemma RowsStay(s: State, e: Event, id: nat)
    requires id in s.store.rows
    ensures id in Step(s, e).0.store.rows
    ensures !Store.IsPending(s.store.rows, id) ==> !Store.IsPending(Step(s, e).0.store.rows, id)
  {
    StepIsStoreOp(s, e);
    hide Step, StoreOp;
  }

  /** What queues a command for which proposal. */
  lemma IssueIsFor(s: State, e: Event)
    requires e.Prepare? ==> e.ids.proposal !in s.store.rows
    ensures ApprovalLost(s, e) ==> e.Approve? && Approvable(s, e).Some?
    ensures e.Approve? && Approvable(s, e).Some? ==>
              Step(s, e).1.Some? && Step(s, e).1.value.proposal == e.id
              && e.id in s.store.rows && Store.IsPending(s.store.rows, e.id)
    ensures Step(s, e).1.Some? && !(e.Approve? && Approvable(s, e).Some?) ==> Step(s, e).1.value.proposal !in s.store.rows
  {
    hide Prepared, Policy.Step, Command;
  }

  lemma {:induction false} IssuedAreDecidedOrLost(r: Run)
    requires FreshProposals(r)
    ensures DecidedOrLost(At(r).store.rows, Issued(r), Lost(r))
  {
    hide Step, ApprovalLost, HasIssue, Approvable, Store.IsPending;
    if r.Start? {
      forall id ensures !HasIssue([], id) { NoneHasIssue(id); }
    } else {
      IssuedAreDecidedOrLost(r.before);
      IssuesGrow(r);
      forall id | HasIssue(Issued(r), id)
        ensures id in At(r).store.rows && (!Store.IsPending(At(r).store.rows, id) || id in Lost(r))
      {
        if HasIssue(Issued(r.before), id) { RowsStay(At(r.before), r.event, id); }
      }
    }
  }

  lemma NoneHasIssue(id: nat)
    ensures !HasIssue([], id)
  {
  }

  lemma IssuesGrow(r: Run)
    requires r.Then? && FreshProposals(r)
    ensures var (s, e) := (At(r.before), r.event);
            && (ApprovalLost(s, e) ==> HasIssue(Issued(r), e.id))
            && (forall id :: HasIssue(Issued(r.before), id) ==> HasIssue(Issued(r), id))
            && (forall id :: HasIssue(Issued(r), id) && !HasIssue(Issued(r.before), id) ==>
                  id in At(r).store.rows && (!Store.IsPending(At(r).store.rows, id) || (ApprovalLost(s, e) && id == e.id)))
  {
    hide Step, ApprovalLost, HasIssue, Approvable, Store.IsPending;
    var s, e := At(r.before), r.event;
    IssueIsFor(s, e);
    if Step(s, e).1.Some? {
      var i := Step(s, e).1.value;
      forall id ensures HasIssue(Issued(r), id) <==> HasIssue(Issued(r.before), id) || id == i.proposal {
        OneMoreHasIssue(Issued(r.before), i, id);
      }
      if ApprovalLost(s, e) { RowsStay(s, e, e.id); } else { NewIssue(s, e); }
    }
  }

  /** The condition is exact over whole runs: as long as ids are fresh, each proposal has at most one
      command ever queued exactly when no proposal whose approval was not written was approved again. */
  lemma {:induction false} OncePerProposalExactlyWhen(r: Run)
    requires FreshProposals(r)
    ensures OncePerProposal(Issued(r)) <==> NoReapproval(r)
  {
    hide Step, Approvable, HasIssue, OncePerProposal, Store.IsPending;
    if r.Start? {
      assert OncePerProposal([]) by { OnceInNone(); }
    } else {
      var s, e, issued := At(r.before), r.event, Issued(r.before);
      OncePerProposalExactlyWhen(r.before);
      IssuedAreDecidedOrLost(r.before);
      IssueIsFor(s, e);
      if Step(s, e).1.Some? { OneMoreHasIssue(issued, Step(s, e).1.value, 0); }
    }
  }

  lemma OnceInNone()
    ensures OncePerProposal([])
  {
  }

  /** For two approvals in a row: when an approval queues a command, approving the same proposal once
      more queues a second one exactly when the first approval was not written. */
  lemma ApprovingTwiceQueuesTwiceExactlyWhenLost(s: State, e: Event, again: Event)
    requires e.Approve? && again.Approve? && again.id == e.id && again.seen
    requires Approvable(s, e).Some?
    ensures Step(Step(s, e).0, again).1.Some? <==> ApprovalLost(s, e)
  {
    hide Templates.ResolveSteps, Templates.ResolveConditions, Templates.ResolveVerify;
    var s' := Step(s, e).0;
    if e.write.Failed? {
      assert s'.store.rows == s.store.rows;
      assert Approvable(s', again).Some?;
    }
  }

  // ---- one record per command ----

  /** Command ids are new when they are made up: no record carries them yet. */
  predicate FreshCommands(r: Run) {
    r.Then? ==>
      && FreshCommands(r.before)
      && (r.event.Prepare? || r.event.Approve? ==> Unused(At(r.before).store.rows, r.event.ids.command))
  }

  predicate Unused(rows: Store.Table, command: nat) { forall id :: id in rows ==> rows[id].commandId != Some(command) }

  /** No two records name the same command. */
  ghost predicate CommandsNameOneRecord(rows: Store.Table) {
    forall a, b :: a in rows && b in rows && rows[a].commandId.Some? && rows[a].commandId == rows[b].commandId ==> a == b
  }

  /** The command a store operation may write to a record. */
  function CommandOf(op: Store.Op): Option<nat> {
    match op
    case InsertAutoApproved(_, commandId, _, _, _) => Some(commandId)
    case Approve(_, _, commandId, _, _, _) => Some(commandId)
    case _ => None
  }

  lemma StoreKeepsCommandsApart(s: Store.State, op: Store.Op)
    requires CommandsNameOneRecord(s.rows) && (CommandOf(op).Some? ==> Unused(s.rows, CommandOf(op).value))
    ensures CommandsNameOneRecord(Store.Next(s, op).rows)
  {
    hide Store.Key, Store.PendingKeys, Store.Evicted;
  }

  lemma StoreOpCommand(s: State, e: Event)
    requires StoreOp(s, e).Some? && CommandOf(StoreOp(s, e).value).Some?
    ensures (e.Prepare? || e.Approve?) && CommandOf(StoreOp(s, e).value).value == e.ids.command
  {
    hide Prepared, Policy.Step, Command;
    if e.Prepare? {
      var (t, values) := Prepared(s.cfg, e.fault).value;
      BuiltFor(s.cfg, t, ProposalFor(e.fault, e.ids, t, values), e.ids, e.issued, PolicyAuto);
    } else {
      assert e.Approve?;
      var p := s.store.rows[e.id].proposal;
      BuiltFor(s.cfg, Get(s.cfg.templates, p.templateId).value, p, e.ids, e.issued, Human(e.user, e.issued));
    }
  }

  function FirstRows(r: Run): Store.Table { match r case Start(_, rows) => rows case Then(before, _) => FirstRows(before) }

  lemma {:induction false} CommandsStayApart(r: Run)
    requires FreshCommands(r) && CommandsNameOneRecord(FirstRows(r))
    ensures CommandsNameOneRecord(At(r).store.rows)
  {
    hide Step, StoreOp, Store.Next, CommandsNameOneRecord, Unused, CommandOf;
    match r
    case Start(_, rows) => assert At(r).store.rows == rows;
    case Then(before, e) =>
      CommandsStayApart(before);
      var s := At(before);
      StepIsStoreOp(s, e);
      var op := StoreOp(s, e);
      if op.Some? {
        if CommandOf(op.value).Some? { StoreOpCommand(s, e); }
        StoreKeepsCommandsApart(s.store, op.value);
      }
  }

  /** A result reaches the record of its own proposal and no other: reported for a command that was
      queued, it closes exactly the record of the proposal it was queued for. */
  lemma ResultClosesItsProposal(r: Run, k: nat, report: Actuator.Report)
    requires FreshProposals(r) && NoApprovalLost(r) && FreshCommands(r) && CommandsNameOneRecord(FirstRows(r))
    requires k < |Issued(r)| && report.commandId == Issued(r)[k].env.payload.commandId
    ensures var (rows, rows') := (At(r).store.rows, Step(At(r), Event.Report(report, Store.Answered)).0.store.rows);
            var p := Issued(r)[k].proposal;
            && p in rows && p in rows' && rows'[p] == rows[p].(result := Some(report))
            && rows'.Keys == rows.Keys && forall id :: id in rows && id != p ==> rows'[id] == rows[id]
  {
    hide FreshProposals, FreshCommands, NoApprovalLost, At, Issued, OncePerProposal, FirstRows;
    OneCommandPerProposal(r);
    CommandsStayApart(r);
    assert OnRecord(At(r).store.rows, Issued(r)[k]);
    hide AllOnRecord;
  }

  // ---- automatic executions ----

  function AutoHistory(r: Run): Policy.History {
    match r
    case Start(_, _) => Policy.Start
    case Then(before, Prepare(f, _, now, _, _)) =>
      var p := Prepared(At(before).cfg, f);
      if p.None? then AutoHistory(before) else Policy.Then(AutoHistory(before), CallFor(f, p.value.0, now))
    case Then(_, Restart(_)) => Policy.Start
    case Then(before, _) => AutoHistory(before)
  }

  /** The engine's log is the one its calls since the last restart left behind. */
  lemma {:induction false} EngineFollows(r: Run)
    ensures At(r).hits == Policy.HitsAfter(At(r).cfg.policy, AutoHistory(r))
  {
    hide Prepared, Command, Policy.Step, Store.Next, Approvable;
    if r.Then? { EngineFollows(r.before); }
  }

  predicate IsAuto(i: Issue) { i.env.payload.approval.PolicyAuto? }

  function PairOf(i: Issue): Policy.Pair { Policy.Pair(i.host, i.env.payload.templateId) }

  /** When automatic commands for the pair were queued since the last restart. */
  function AutoIssueTimes(r: Run, k: Policy.Pair): seq<int> {
    match r
    case Start(_, _) => []
    case Then(before, e) =>
      if e.Restart? then []
      else
        var issue := Step(At(before), e).1;
        if issue.Some? && IsAuto(issue.value) && PairOf(issue.value) == k
        then AutoIssueTimes(before, k) + [issue.value.at]
        else AutoIssueTimes(before, k)
  }

  /** An automatic command passed every guardrail. */
  ghost predicate Warranted(cfg: Config, i: Issue) {
    var tier := i.env.payload.riskTier;
    && cfg.policy.autoEnabled && tier != Dangerous
    && (exists n :: Policy.FirstMatch(cfg.policy.rules, i.host, tier, n) && cfg.policy.rules[n].decision == Policy.Auto)
    && i.env == Crypto.Sign(cfg.signer, i.env.payload)
  }

  lemma AutoIssueShape(s: State, e: Event)
    requires Step(s, e).1.Some? && IsAuto(Step(s, e).1.value)
    ensures e.Prepare? && Prepared(s.cfg, e.fault).Some?
    ensures var (t, i) := (Prepared(s.cfg, e.fault).value.0, Step(s, e).1.value);
            && i.at == e.now == CallFor(e.fault, t, e.now).now && PairOf(i) == CallFor(e.fault, t, e.now).Key()
            && i.host == e.fault.host && i.env.payload.riskTier == t.riskTier
            && Policy.Step(s.cfg.policy, s.hits, CallFor(e.fault, t, e.now)).0.decision == Policy.Auto
            && i.env == Crypto.Sign(s.cfg.signer, i.env.payload)
  {
    hide Prepared, Policy.Step, Command;
    if e.Approve? {
      var p := s.store.rows[e.id].proposal;
      BuiltFor(s.cfg, Get(s.cfg.templates, p.templateId).value, p, e.ids, e.issued, Human(e.user, e.issued));
      assert false;
    } else {
      var (t, values) := Prepared(s.cfg, e.fault).value;
      BuiltFor(s.cfg, t, ProposalFor(e.fault, e.ids, t, values), e.ids, e.issued, PolicyAuto);
    }
  }

  lemma AutoMeansPermitted(c: Policy.Config, hits: Policy.HitLog, call: Policy.Call)
    requires Policy.Step(c, hits, call).0.decision == Policy.Auto
    ensures c.autoEnabled && call.tier != Dangerous && Policy.Decide(c.rules, call.host, call.tier) == Policy.Auto
  {
    hide Policy.Decide, Policy.BreakerStep;
  }

  lemma AutoIsWarranted(s: State, e: Event)
    requires Step(s, e).1.Some? && IsAuto(Step(s, e).1.value)
    ensures Warranted(s.cfg, Step(s, e).1.value)
  {
    AutoIssueShape(s, e);
    hide Step, Prepared, Policy.Step, Policy.Decide;
    var t := Prepared(s.cfg, e.fault).value.0;
    AutoMeansPermitted(s.cfg.policy, s.hits, CallFor(e.fault, t, e.now));
    Policy.DecisionNeedsFirstMatchingRule(s.cfg.policy.rules, e.fault.host, t.riskTier);
  }

  /** The clock read for policy never steps back between two restarts, nor before `now`. */
  predicate Monotone(r: Run, now: int) { Policy.MonotoneUpTo(AutoHistory(r), now) }

  lemma HistoryStep(r: Run)
    requires r.Then?
    ensures AutoHistory(r) == (
              if r.event.Restart? then Policy.Start
              else if r.event.Prepare? && Prepared(At(r.before).cfg, r.event.fault).Some?
              then Policy.Then(AutoHistory(r.before), CallFor(r.event.fault, Prepared(At(r.before).cfg, r.event.fault).value.0, r.event.now))
              else AutoHistory(r.before))
    ensures !r.event.Restart? ==> At(r).cfg == At(r.before).cfg
  {
    hide Prepared, Command, Policy.Step, Store.Next, Approvable;
  }

  /** Queued automatic commands are some of the automatic decisions. */
  lemma {:induction false} IssuesAreDecisions(r: Run, k: Policy.Pair, lo: int, hi: int)
    ensures Policy.CountIn(AutoIssueTimes(r, k), lo, hi) <=
            Policy.CountIn(Policy.AutoTimes(At(r).cfg.policy, AutoHistory(r), k), lo, hi)
  {
    hide Step, Policy.Step, Policy.CountIn, Prepared, AutoHistory, At;
    match r
    case Start(_, _) => NothingIssued(r, k, lo, hi);
    case Then(before, e) =>
      IssuesAreDecisions(before, k, lo, hi);
      HistoryStep(r);
      EngineFollows(before);
      OneMoreIssue(r, k, lo, hi);
  }

  lemma NothingIssued(r: Run, k: Policy.Pair, lo: int, hi: int)
    requires r.Start? || r.event.Restart?
    ensures AutoIssueTimes(r, k) == [] && Policy.CountIn(AutoIssueTimes(r, k), lo, hi) == 0
  {
  }

  lemma OneMoreIssue(r: Run, k: Policy.Pair, lo: int, hi: int)
    requires r.Then?
    requires Policy.CountIn(AutoIssueTimes(r.before, k), lo, hi) <=
             Policy.CountIn(Policy.AutoTimes(At(r.before).cfg.policy, AutoHistory(r.before), k), lo, hi)
    ensures Policy.CountIn(AutoIssueTimes(r, k), lo, hi) <=
            Policy.CountIn(Policy.AutoTimes(At(r).cfg.policy, AutoHistory(r), k), lo, hi)
  {
    hide *;
    var s, e, c := At(r.before), r.event, At(r.before).cfg.policy;
    HistoryStep(r);
    EngineFollows(r.before);
    if e.Restart? {
      NothingIssued(r, k, lo, hi);
      return;
    }
    var h := AutoHistory(r.before);
    var past, past' := Policy.AutoTimes(c, h, k), Policy.AutoTimes(At(r).cfg.policy, AutoHistory(r), k);
    var times := AutoIssueTimes(r.before, k);
    IssueTimesStep(r, k);
    var issue := Step(s, e).1;
    if e.Prepare? && Prepared(s.cfg, e.fault).Some? {
      var call := CallFor(e.fault, Prepared(s.cfg, e.fault).value.0, e.now);
      AutoTimesStep(c, h, call, k);
      Policy.CountAppend(past, call.now, lo, hi);
      Policy.CountAppend(times, call.now, lo, hi);
      if issue.Some? && IsAuto(issue.value) {
        AutoIssueShape(s, e);
      }
    } else if issue.Some? && IsAuto(issue.value) {
      AutoIssueShape(s, e);
    }
  }

  lemma IssueTimesStep(r: Run, k: Policy.Pair)
    requires r.Then? && !r.event.Restart?
    ensures var issue := Step(At(r.before), r.event).1;
            AutoIssueTimes(r, k) ==
            if issue.Some? && IsAuto(issue.value) && PairOf(issue.value) == k
            then AutoIssueTimes(r.before, k) + [issue.value.at] else AutoIssueTimes(r.before, k)
  {
    hide Step;
  }

  lemma AutoTimesStep(c: Policy.Config, h: Policy.History, call: Policy.Call, k: Policy.Pair)
    ensures Policy.AutoTimes(c, Policy.Then(h, call), k) ==
            if Policy.Step(c, Policy.HitsAfter(c, h), call).0.decision == Policy.Auto && call.Key() == k
            then Policy.AutoTimes(c, h, k) + [call.now] else Policy.AutoTimes(c, h, k)
  {
    hide Policy.Step, Policy.HitsAfter;
  }

  /** Between two restarts no window ever holds more than `maxAuto` automatic commands of one host and
      template. */
  lemma AutomaticCommandsAreBounded(r: Run, k: Policy.Pair, now: int, at: int)
    requires Monotone(r, now) && At(r).cfg.policy.maxAuto < 0x1_0000_0000
    ensures var c := At(r).cfg.policy;
            var window := if c.window <= 0x7FFF_FFFF_FFFF_FFFF * 1_000_000 then c.window else 0;
            Policy.CountIn(AutoIssueTimes(r, k), at - window, at) <= c.maxAuto
  {
    hide At, AutoHistory, Policy.AutoTimes, Policy.CountIn, Policy.MonotoneUpTo;
    var c := At(r).cfg.policy;
    IssuesAreDecisions(r, k, at - Policy.Span(c.window), at);
    Policy.SpanIsTheWindow(c.window);
    Policy.RateBound(c, AutoHistory(r), k, now, at);
  }

  // ---- the budget over whole runs ----

  /** When automatic commands for the pair were queued, across restarts. */
  function AutoIssueTimesEver(r: Run, k: Policy.Pair): seq<int> {
    match r
    case Start(_, _) => []
    case Then(before, e) =>
      var issue := Step(At(before), e).1;
      if issue.Some? && IsAuto(issue.value) && PairOf(issue.value) == k
      then AutoIssueTimesEver(before, k) + [issue.value.at] else AutoIssueTimesEver(before, k)
  }

  function Restarts(r: Run): nat { if r.Start? then 0 else Restarts(r.before) + (if r.event.Restart? then 1 else 0) }

  /** The policy settings are the same after every restart. */
  predicate SamePolicy(r: Run, c: Policy.Config) {
    match r
    case Start(cfg, _) => cfg.policy == c
    case Then(before, e) => SamePolicy(before, c) && (e.Restart? ==> e.cfg.policy == c)
  }

  /** The clock is monotone between restarts. */
  ghost predicate MonotoneLives(r: Run) {
    r.Then? ==> MonotoneLives(r.before) && (r.event.Restart? ==> exists now :: Monotone(r.before, now))
  }

  lemma {:induction false} PolicyStays(r: Run, c: Policy.Config)
    requires SamePolicy(r, c)
    ensures At(r).cfg.policy == c
  {
    hide Prepared, Command, Policy.Step, Store.Next, Approvable;
    if r.Then? { PolicyStays(r.before, c); }
  }

  lemma EverStep(r: Run, k: Policy.Pair)
    requires r.Then?
    ensures var issue := Step(At(r.before), r.event).1;
            AutoIssueTimesEver(r, k) ==
            if issue.Some? && IsAuto(issue.value) && PairOf(issue.value) == k
            then AutoIssueTimesEver(r.before, k) + [issue.value.at] else AutoIssueTimesEver(r.before, k)
    ensures r.event.Restart? ==> Step(At(r.before), r.event).1.None?
  {
    hide Prepared, Command, Policy.Step, Store.Next, Approvable;
  }

  lemma {:induction false} EarlierLivesAreBounded(r: Run, k: Policy.Pair, c: Policy.Config, at: int)
    requires SamePolicy(r, c) && MonotoneLives(r) && c.maxAuto < 0x1_0000_0000
    ensures var window := if c.window <= 0x7FFF_FFFF_FFFF_FFFF * 1_000_000 then c.window else 0;
            Policy.CountIn(AutoIssueTimesEver(r, k), at - window, at) <=
            Restarts(r) * c.maxAuto + Policy.CountIn(AutoIssueTimes(r, k), at - window, at)
  {
    hide *;
    var lo := at - if c.window <= 0x7FFF_FFFF_FFFF_FFFF * 1_000_000 then c.window else 0;
    if r.Start? {
      NothingEver(r, k, lo, at);
      return;
    }
    LivesStep(r, c);
    EarlierLivesAreBounded(r.before, k, c, at);
    EverStep(r, k);
    if r.event.Restart? {
      var now :| Monotone(r.before, now);
      PolicyStays(r.before, c);
      AutomaticCommandsAreBounded(r.before, k, now, at);
      NothingIssued(r, k, lo, at);
      OneMoreLife(Restarts(r.before), c.maxAuto);
    } else {
      IssueTimesStep(r, k);
      var issue := Step(At(r.before), r.event).1;
      if issue.Some? {
        Policy.CountAppend(AutoIssueTimesEver(r.before, k), issue.value.at, lo, at);
        Policy.CountAppend(AutoIssueTimes(r.before, k), issue.value.at, lo, at);
      }
    }
  }

  lemma OneMoreLife(n: nat, max: nat)
    ensures (n + 1) * max == n * max + max
  {
  }

  lemma NothingEver(r: Run, k: Policy.Pair, lo: int, hi: int)
    requires r.Start?
    ensures Policy.CountIn(AutoIssueTimesEver(r, k), lo, hi) == 0 && Restarts(r) == 0
  {
  }

  lemma LivesStep(r: Run, c: Policy.Config)
    requires r.Then? && SamePolicy(r, c) && MonotoneLives(r)
    ensures SamePolicy(r.before, c) && MonotoneLives(r.before)
    ensures Restarts(r) == Restarts(r.before) + (if r.event.Restart? then 1 else 0)
    ensures r.event.Restart? ==> exists now :: Monotone(r.before, now)
  {
    hide Monotone;
  }

  /** Every restart grants one more budget and no more than that: over a whole run no window ever holds
      more automatic commands of one host and template than `maxAuto` for each of its lives. */
  lemma BudgetPerLife(r: Run, k: Policy.Pair, c: Policy.Config, now: int, at: int)
    requires SamePolicy(r, c) && MonotoneLives(r) && Monotone(r, now) && c.maxAuto < 0x1_0000_0000
    ensures var window := if c.window <= 0x7FFF_FFFF_FFFF_FFFF * 1_000_000 then c.window else 0;
            Policy.CountIn(AutoIssueTimesEver(r, k), at - window, at) <= (Restarts(r) + 1) * c.maxAuto
  {
    hide *;
    EarlierLivesAreBounded(r, k, c, at);
    PolicyStays(r, c);
    AutomaticCommandsAreBounded(r, k, now, at);
    OneMoreLife(Restarts(r), c.maxAuto);
  }

  /** When the engine decided automatically for the pair, in all lives. */
  function DecisionTimesEver(r: Run, k: Policy.Pair): seq<int> {
    match r
    case Start(_, _) => []
    case Then(before, Prepare(f, _, now, _, _)) =>
      var p := Prepared(At(before).cfg, f);
      if p.Some? && DecidesAuto(At(before), CallFor(f, p.value.0, now)) && CallFor(f, p.value.0, now).Key() == k
      then DecisionTimesEver(before, k) + [now] else DecisionTimesEver(before, k)
    case Then(before, _) => DecisionTimesEver(before, k)
  }

  predicate DecidesAuto(s: State, call: Policy.Call) { Policy.Step(s.cfg.policy, s.hits, call).0.decision == Policy.Auto }

  /** When it did in this life. */
  function DecisionTimes(r: Run, k: Policy.Pair): seq<int> { Policy.AutoTimes(At(r).cfg.policy, AutoHistory(r), k) }

  lemma DecisionStep(r: Run, k: Policy.Pair)
    requires r.Then?
    ensures r.event.Restart? ==> DecisionTimes(r, k) == [] && DecisionTimesEver(r, k) == DecisionTimesEver(r.before, k)
    ensures !r.event.Restart? ==>
              || (DecisionTimes(r, k) == DecisionTimes(r.before, k) && DecisionTimesEver(r, k) == DecisionTimesEver(r.before, k))
              || (r.event.Prepare? && DecisionTimes(r, k) == DecisionTimes(r.before, k) + [r.event.now]
                  && DecisionTimesEver(r, k) == DecisionTimesEver(r.before, k) + [r.event.now])
  {
    HistoryStep(r);
    EngineFollows(r.before);
    var s, e := At(r.before), r.event;
    if e.Prepare? && Prepared(s.cfg, e.fault).Some? {
      AutoTimesStep(s.cfg.policy, AutoHistory(r.before), CallFor(e.fault, Prepared(s.cfg, e.fault).value.0, e.now), k);
    }
    hide Prepared, Policy.Step, At, AutoHistory, Policy.HitsAfter;
  }

  lemma {:induction false} ThisLifeIsPartOfAll(r: Run, k: Policy.Pair, lo: int, hi: int)
    ensures Policy.CountIn(DecisionTimes(r, k), lo, hi) <= Policy.CountIn(DecisionTimesEver(r, k), lo, hi)
  {
    hide *;
    if r.Start? {
      NothingDecided(r, k, lo, hi);
      return;
    }
    ThisLifeIsPartOfAll(r.before, k, lo, hi);
    DecisionStep(r, k);
    if r.event.Restart? {
      NothingCounts(lo, hi);
    } else if r.event.Prepare? {
      Policy.CountAppend(DecisionTimes(r.before, k), r.event.now, lo, hi);
      Policy.CountAppend(DecisionTimesEver(r.before, k), r.event.now, lo, hi);
    }
  }

  lemma NothingCounts(lo: int, hi: int)
    ensures Policy.CountIn([], lo, hi) == 0
  {
  }

  lemma NothingDecided(r: Run, k: Policy.Pair, lo: int, hi: int)
    requires r.Start?
    ensures Policy.CountIn(DecisionTimes(r, k), lo, hi) == 0 == Policy.CountIn(DecisionTimesEver(r, k), lo, hi)
  {
  }

  /** After any run, restarts included: the engine answers a call as a breaker that remembered all lives
      would, exactly unless the call is otherwise allowed, the window of this life is not yet spent, and
      that of all lives together is. */
  lemma AnswersForAllLivesExactlyUnless(r: Run, call: Policy.Call)
    requires Monotone(r, call.now) && At(r).cfg.policy.maxAuto < 0x1_0000_0000
    ensures var (c, k) := (At(r).cfg.policy, call.Key());
            var lo := call.now - if c.window <= 0x7FFF_FFFF_FFFF_FFFF * 1_000_000 then c.window else 0;
            var (own, all) := (Policy.CountIn(DecisionTimes(r, k), lo, call.now), Policy.CountIn(DecisionTimesEver(r, k), lo, call.now));
            Policy.Step(c, At(r).hits, call).0 == Policy.Reference(c, DecisionTimesEver(r, k), call) <==>
            !(Policy.Permitted(c, call) == Policy.Auto && own < c.maxAuto <= all)
  {
    hide *;
    var c, k := At(r).cfg.policy, call.Key();
    Policy.SpanIsTheWindow(c.window);
    AnswersForThisLife(r, call);
    ThisLifeIsPartOfAll(r, k, call.now - Policy.Span(c.window), call.now);
    Policy.ReferencesDifferExactlyWhen(c, DecisionTimes(r, k), DecisionTimesEver(r, k), call);
  }

  lemma AnswersForThisLife(r: Run, call: Policy.Call)
    requires Monotone(r, call.now) && At(r).cfg.policy.maxAuto < 0x1_0000_0000
    ensures Policy.Step(At(r).cfg.policy, At(r).hits, call).0 ==
            Policy.Reference(At(r).cfg.policy, DecisionTimes(r, call.Key()), call)
  {
    EngineFollows(r);
    Policy.EngineRefinesHistory(At(r).cfg.policy, AutoHistory(r), call);
    hide At, AutoHistory, Policy.AutoTimes, Policy.Reference, Policy.Step, Policy.HitsAfter, Policy.MonotoneUpTo;
  }

  /** The configuration an issue was made under. */
  function ConfigOf(r: Run, k: nat): Config
    requires k < |Issued(r)|
  {
    if k < |Issued(r.before)| then ConfigOf(r.before, k) else At(r.before).cfg
  }

  /** Every automatic command ever queued was issued with automation enabled, at a tier below dangerous,
      under a first matching `Auto` rule, signed by the active key. */
  lemma {:induction false} AutomaticCommandsAreWarranted(r: Run, k: nat)
    requires k < |Issued(r)| && IsAuto(Issued(r)[k])
    ensures Warranted(ConfigOf(r, k), Issued(r)[k])
  {
    hide Step, Warranted, At;
    if k < |Issued(r.before)| {
      AutomaticCommandsAreWarranted(r.before, k);
    } else {
      AutoIsWarranted(At(r.before), r.event);
    }
  }

  /** The budget lives in memory: right after a restart a call the breaker had refused is granted. */
  lemma RestartRefillsTheBudget(r: Run, cfg: Config, call: Policy.Call)
    ensures var s := Step(At(r), Restart(cfg)).0;
            Policy.Step(cfg.policy, s.hits, call).0.decision == Policy.Auto <==>
            Policy.Permitted(cfg.policy, call) == Policy.Auto && cfg.policy.maxAuto > 0
  {
    hide Policy.Decide, At, Policy.Permitted;
    assert Policy.After([], call.now - Policy.Span(cfg.policy.window)) == [];
  }

  // ---- the queue ----

  /** The queue's part of a run since the last restart. */
  function QueueRun(r: Run): CommandQueue.Run {
    match r
    case Start(_, _) => CommandQueue.Empty
    case Then(before, e) =>
      if e.Restart? then CommandQueue.Empty
      else if e.Pull? then CommandQueue.Then(QueueRun(before), CommandQueue.Take(e.agent))
      else
        var issue := Step(At(before), e).1;
        if issue.Some? then CommandQueue.Then(QueueRun(before), CommandQueue.Put(issue.value.env)) else QueueRun(before)
  }

  lemma QueueStep(s: State, e: Event)
    ensures Step(s, e).0.queue == (
              if e.Restart? then map[]
              else if e.Pull? then CommandQueue.Drained(s.queue, e.agent)
              else if Step(s, e).1.Some? then CommandQueue.Queued(s.queue, Step(s, e).1.value.env)
              else s.queue)
    ensures e.Restart? || e.Pull? ==> Step(s, e).1 == None
  {
    hide Prepared, Command, Policy.Step, Store.Next, Approvable, CommandQueue.Queued, CommandQueue.Drained;
  }

  lemma {:induction false} QueueFollows(r: Run)
    ensures CommandQueue.At(QueueRun(r)) == At(r).queue
  {
    hide Step, CommandQueue.Queued, CommandQueue.Drained;
    match r
    case Start(_, _) =>
    case Then(before, e) =>
      QueueFollows(before);
      QueueStep(At(before), e);
  }

  /** What was queued for the agent since the last restart. */
  function IssuedTo(r: Run, agent: nat): seq<Crypto.Envelope> {
    match r
    case Start(_, _) => []
    case Then(before, e) =>
      if e.Restart? then []
      else
        var issue := Step(At(before), e).1;
        if issue.Some? && issue.value.env.payload.agentId == agent
        then IssuedTo(before, agent) + [issue.value.env] else IssuedTo(before, agent)
  }

  /** What the agent pulled since the last restart. */
  function Delivered(r: Run, agent: nat): seq<Crypto.Envelope> {
    match r
    case Start(_, _) => []
    case Then(before, e) =>
      if e.Restart? then []
      else if e.Pull? && e.agent == agent then Delivered(before, agent) + CommandQueue.Waiting(At(before).queue, agent)
      else Delivered(before, agent)
  }

  lemma {:induction false} SameTraffic(r: Run, agent: nat)
    ensures CommandQueue.PutFor(QueueRun(r), agent) == IssuedTo(r, agent)
    ensures CommandQueue.TakenBy(QueueRun(r), agent) == Delivered(r, agent)
  {
    hide Step, CommandQueue.Waiting;
    match r
    case Start(_, _) =>
    case Then(before, e) =>
      SameTraffic(before, agent);
      QueueFollows(before);
      QueueStep(At(before), e);
  }

  /** Between two restarts, what an agent pulled followed by what still waits for it is exactly what
      was issued to it, in order; so each command is delivered at most once and only to its agent. A
      restart drops whatever had not been pulled. */
  lemma CommandsAreConserved(r: Run, agent: nat)
    ensures Delivered(r, agent) + CommandQueue.Waiting(At(r).queue, agent) == IssuedTo(r, agent)
    ensures forall i :: 0 <= i < |IssuedTo(r, agent)| ==> IssuedTo(r, agent)[i].payload.agentId == agent
  {
    hide *;
    SameTraffic(r, agent);
    QueueFollows(r);
    CommandQueue.Conserved(QueueRun(r), agent);
  }

  // ---- the queue over whole runs ----

  /** What was ever queued for the agent, across restarts. */
  function IssuedEver(r: Run, agent: nat): seq<Crypto.Envelope> {
    match r
    case Start(_, _) => []
    case Then(before, e) =>
      var issue := Step(At(before), e).1;
      if issue.Some? && issue.value.env.payload.agentId == agent
      then IssuedEver(before, agent) + [issue.value.env] else IssuedEver(before, agent)
  }

  /** What the agent ever pulled, across restarts. */
  function DeliveredEver(r: Run, agent: nat): seq<Crypto.Envelope> {
    match r
    case Start(_, _) => []
    case Then(before, e) =>
      if e.Pull? && e.agent == agent then DeliveredEver(before, agent) + CommandQueue.Waiting(At(before).queue, agent)
      else DeliveredEver(before, agent)
  }

  /** What restarts dropped. */
  function LostEver(r: Run, agent: nat): seq<Crypto.Envelope> {
    match r
    case Start(_, _) => []
    case Then(before, e) =>
      if e.Restart? then LostEver(before, agent) + CommandQueue.Waiting(At(before).queue, agent) else LostEver(before, agent)
  }

  /** Every restart found nothing waiting for the agent. */
  predicate RestartsFindNothingWaiting(r: Run, agent: nat) {
    r.Then? ==>
      && RestartsFindNothingWaiting(r.before, agent)
      && (r.event.Restart? ==> CommandQueue.Waiting(At(r.before).queue, agent) == [])
  }

  lemma WaitingStep(s: State, e: Event, agent: nat)
    ensures var (was, now) := (CommandQueue.Waiting(s.queue, agent), CommandQueue.Waiting(Step(s, e).0.queue, agent));
            var issue := Step(s, e).1;
            now == if e.Restart? || (e.Pull? && e.agent == agent) then []
                   else if issue.Some? && issue.value.env.payload.agentId == agent then was + [issue.value.env]
                   else was
    ensures e.Restart? || e.Pull? ==> Step(s, e).1 == None
  {
    QueueStep(s, e);
    hide Step;
  }

  /** Every command ever queued for an agent was pulled, still waits or was dropped by a restart, each
      as often as it was queued. */
  lemma {:induction false} NothingElseIsLost(r: Run, agent: nat)
    ensures multiset(DeliveredEver(r, agent)) + multiset(CommandQueue.Waiting(At(r).queue, agent)) + multiset(LostEver(r, agent))
            == multiset(IssuedEver(r, agent))
  {
    hide *;
    if r.Start? {
      NothingWaits(r, agent);
      return;
    }
    NothingElseIsLost(r.before, agent);
    WaitingStep(At(r.before), r.event, agent);
    TrafficStep(r, agent);
    var w := CommandQueue.Waiting(At(r.before).queue, agent);
    assert multiset(DeliveredEver(r.before, agent) + w) == multiset(DeliveredEver(r.before, agent)) + multiset(w);
    assert multiset(LostEver(r.before, agent) + w) == multiset(LostEver(r.before, agent)) + multiset(w);
  }

  lemma TrafficStep(r: Run, agent: nat)
    requires r.Then?
    ensures var (s, e, issue) := (At(r.before), r.event, Step(At(r.before), r.event).1);
            var w := CommandQueue.Waiting(s.queue, agent);
            && At(r) == Step(s, e).0
            && DeliveredEver(r, agent) == (if e.Pull? && e.agent == agent then DeliveredEver(r.before, agent) + w else DeliveredEver(r.before, agent))
            && LostEver(r, agent) == (if e.Restart? then LostEver(r.before, agent) + w else LostEver(r.before, agent))
            && IssuedEver(r, agent) == (if issue.Some? && issue.value.env.payload.agentId == agent
                                        then IssuedEver(r.before, agent) + [issue.value.env] else IssuedEver(r.before, agent))
  {
    hide Step, CommandQueue.Waiting;
  }

  lemma NothingWaits(r: Run, agent: nat)
    requires r.Start?
    ensures CommandQueue.Waiting(At(r).queue, agent) == []
    ensures DeliveredEver(r, agent) == [] && LostEver(r, agent) == [] && IssuedEver(r, agent) == []
  {
  }

  lemma {:induction false} LossesCount(r: Run, agent: nat)
    ensures LostEver(r, agent) == [] <==> RestartsFindNothingWaiting(r, agent)
  {
    hide At, CommandQueue.Waiting;
    if r.Then? { LossesCount(r.before, agent); }
  }

  /** Commands are conserved over the whole run, in order, exactly when every restart found nothing
      waiting for the agent. */
  lemma {:induction false} ConservedForeverExactlyWhen(r: Run, agent: nat)
    ensures DeliveredEver(r, agent) + CommandQueue.Waiting(At(r).queue, agent) == IssuedEver(r, agent)
            <==> RestartsFindNothingWaiting(r, agent)
  {
    hide *;
    LossesCount(r, agent);
    if RestartsFindNothingWaiting(r, agent) {
      NothingWaitingKeepsOrder(r, agent);
    } else {
      NothingElseIsLost(r, agent);
      SameContents(DeliveredEver(r, agent), CommandQueue.Waiting(At(r).queue, agent), LostEver(r, agent), IssuedEver(r, agent));
    }
  }

  lemma SameContents(d: seq<Crypto.Envelope>, w: seq<Crypto.Envelope>, lost: seq<Crypto.Envelope>, i: seq<Crypto.Envelope>)
    requires multiset(d) + multiset(w) + multiset(lost) == multiset(i)
    ensures |d| + |w| + |lost| == |i|
  {
    assert |multiset(d) + multiset(w) + multiset(lost)| == |d| + |w| + |lost|;
  }

  lemma {:induction false} NothingWaitingKeepsOrder(r: Run, agent: nat)
    requires RestartsFindNothingWaiting(r, agent)
    ensures DeliveredEver(r, agent) + CommandQueue.Waiting(At(r).queue, agent) == IssuedEver(r, agent)
  {
    hide Step, CommandQueue.Waiting;
    match r
    case Start(_, _) => NothingWaits(r, agent);
    case Then(before, e) =>
      NothingWaitingKeepsOrder(before, agent);
      WaitingStep(At(before), e, agent);
  }

  /** A rejection does not recall a command: whatever waits in the queue still does. */
  lemma RejectionDoesNotRecall(s: State, id: nat, user: string, at: int, read: bool, write: Store.Io)
    ensures Step(s, Reject(id, user, at, read, write)).0.queue == s.queue
    ensures id in s.store.rows && write.Answered? ==>
              && Step(s, Reject(id, user, at, read, write)).0.store.rows[id].decision == Store.Rejected(user, at, None)
              && Step(s, Reject(id, user, at, read, write)).0.store.rows[id].commandId == s.store.rows[id].commandId
  {
  }

  /** The dedup cache of a server run is the set of keys of its pending rows. */
  lemma CacheFollows(r: Run)
    requires Store.OnePendingPerKey(Store.InitialRows(StoreRun(r))) && Store.NeverDrifts(StoreRun(r))
    ensures Store.InSync(At(r).store)
  {
    hide *;
    StoreFollows(r);
    Store.CacheIsPendingKeys(StoreRun(r));
  }
}
