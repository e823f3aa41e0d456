/**
The remediation records and their dedup cache (crates/ravn-server/src/remediation.rs:470-691 over
crates/ravn-server/src/db.rs:603-818): a table of rows in the database and, in memory, the keys of
the pending ones.

Each database call may be answered, fail, or take effect without being acknowledged. One store
operation runs at a time.
*/
module Store {
  import opened Options
  import opened Schema
  import Actuator
  import Crypto
  import Policy

  datatype Proposal = Proposal(id: nat, agentId: nat, host: Policy.Host, templateId: string, params: map<string, string>)

  datatype DedupKey = DedupKey(templateId: string, agentId: nat, params: map<string, string>)

  datatype Decision = Pending | Approved(approver: ApprovalRef) | Rejected(user: string, at: int, reason: Option<string>)

  datatype Row = Row(proposal: Proposal, decision: Decision, commandId: Option<nat>,
                     signature: Option<Crypto.Signature>, result: Option<Actuator.Report>, faultSignature: string)

  type Table = map<nat, Row>

  datatype Io = Answered | Failed | Unacknowledged

  function Key(p: Proposal): DedupKey { DedupKey(p.templateId, p.agentId, p.params) }

  /** Two proposals that ask for the same: one template, on one agent, with equal parameters. */
  predicate SameRequest(p: Proposal, q: Proposal) {
    p.templateId == q.templateId && p.agentId == q.agentId && p.params == q.params
  }

  lemma KeysTellRequestsApart(p: Proposal, q: Proposal)
    ensures Key(p) == Key(q) <==> SameRequest(p, q)
  {
  }

  // ---- the statements ----

  predicate IsPending(rows: Table, id: nat) { id in rows && rows[id].decision.Pending? }

  /** INSERT … ON CONFLICT DO NOTHING. */
  function Inserted(rows: Table, row: Row): Table {
    if row.proposal.id in rows then rows else rows[row.proposal.id := row]
  }

  /** UPDATE … WHERE proposal_id = id AND decision_state = 'pending'. */
  function ApprovedIn(rows: Table, id: nat, approver: ApprovalRef, commandId: nat, signature: Option<Crypto.Signature>): Table {
    if IsPending(rows, id)
    then rows[id := rows[id].(decision := Approved(approver), commandId := Some(commandId), signature := signature)]
    else rows
  }

  /** UPDATE … WHERE proposal_id = id, whatever the row's state. */
  function RejectedIn(rows: Table, id: nat, user: string, at: int, reason: Option<string>): Table {
    if id in rows then rows[id := rows[id].(decision := Rejected(user, at, reason))] else rows
  }

  /** UPDATE … WHERE command_id = the result's. */
  function ResultIn(rows: Table, r: Actuator.Report): Table {
    map id | id in rows :: if rows[id].commandId == Some(r.commandId) then rows[id].(result := Some(r)) else rows[id]
  }

  function After(io: Io, before: Table, after: Table): Table { if io.Failed? then before else after }

  function PendingKeys(rows: Table): set<DedupKey> {
    set id | id in rows && rows[id].decision.Pending? :: Key(rows[id].proposal)
  }

  // ---- the store as a machine ----

  datatype State = State(rows: Table, pendingKeys: set<DedupKey>)

  datatype Op =
    | Insert(p: Proposal, faultSignature: string, write: Io)
    | InsertAutoApproved(p: Proposal, commandId: nat, signature: Option<Crypto.Signature>, faultSignature: string, write: Io)
    | Approve(id: nat, approver: ApprovalRef, commandId: nat, signature: Option<Crypto.Signature>, read: bool, write: Io)
    | Reject(id: nat, user: string, at: int, reason: Option<string>, read: bool, write: Io)
    | RecordResult(report: Actuator.Report, write: Io)
    | Restart

  /** The key leaves the cache only if the row was seen pending before the update and the update is
      known to have found it. */
  function Evicted(s: State, id: nat, read: bool, write: Io): set<DedupKey> {
    if read && write.Answered? && IsPending(s.rows, id) then s.pendingKeys - {Key(s.rows[id].proposal)} else s.pendingKeys
  }

  function Next(s: State, op: Op): State {
    match op
    case Insert(p, sig, write) =>
      if Key(p) in s.pendingKeys then s
      else State(After(write, s.rows, Inserted(s.rows, Row(p, Pending, None, None, None, sig))),
                 if write.Answered? then s.pendingKeys + {Key(p)} else s.pendingKeys)
    case InsertAutoApproved(p, commandId, signature, sig, write) =>
      if Key(p) in s.pendingKeys then s
      else s.(rows := After(write, s.rows, Inserted(s.rows, Row(p, Approved(PolicyAuto), Some(commandId), signature, None, sig))))
    case Approve(id, approver, commandId, signature, read, write) =>
      State(After(write, s.rows, ApprovedIn(s.rows, id, approver, commandId, signature)), Evicted(s, id, read, write))
    case Reject(id, user, at, reason, read, write) =>
      State(After(write, s.rows, RejectedIn(s.rows, id, user, at, reason)), Evicted(s, id, read, write))
    case RecordResult(report, write) => s.(rows := After(write, s.rows, ResultIn(s.rows, report)))
    case Restart => State(s.rows, PendingKeys(s.rows))
  }

  datatype Run = Start(rows: Table) | Then(before: Run, op: Op)

  function At(r: Run): State {
    match r
    case Start(rows) => State(rows, PendingKeys(rows))
    case Then(before, op) => Next(At(before), op)
  }

  // ---- the cache and the table agree ----

  ghost predicate OnePendingPerKey(rows: Table) {
    forall a, b :: IsPending(rows, a) && IsPending(rows, b) && SameRequest(rows[a].proposal, rows[b].proposal) ==> a == b
  }

  ghost predicate InSync(s: State) { s.pendingKeys == PendingKeys(s.rows) && OnePendingPerKey(s.rows) }

  /** No pending row is missing from the cache. */
  ghost predicate Covered(s: State) { PendingKeys(s.rows) <= s.pendingKeys && OnePendingPerKey(s.rows) }

  /** The operations that part the cache from the table: a pending row whose insertion was not
      acknowledged or whose id was taken, and a pending row decided by an update that was not
      acknowledged or not preceded by a successful read. */
  predicate Drifts(s: State, op: Op) {
    match op
    case Insert(p, _, write) =>
      Key(p) !in s.pendingKeys && (if p.id in s.rows then write.Answered? else write.Unacknowledged?)
    case Approve(id, _, _, _, read, write) =>
      IsPending(s.rows, id) && (write.Unacknowledged? || (write.Answered? && !read))
    case Reject(id, _, _, _, read, write) =>
      IsPending(s.rows, id) && (write.Unacknowledged? || (write.Answered? && !read))
    case _ => false
  }

  /** A pending row that made it into the table behind the store's back. */
  predicate InsertLost(s: State, op: Op) {
    op.Insert? && Key(op.p) !in s.pendingKeys && op.p.id !in s.rows && op.write.Unacknowledged?
  }

  lemma OwnKey(rows: Table, id: nat)
    requires IsPending(rows, id)
    ensures Key(rows[id].proposal) in PendingKeys(rows)
  {
  }

  lemma Owner(rows: Table, k: DedupKey) returns (id: nat)
    requires k in PendingKeys(rows)
    ensures IsPending(rows, id) && Key(rows[id].proposal) == k
  {
    id :| IsPending(rows, id) && Key(rows[id].proposal) == k;
  }

  lemma KeysGrow(rows: Table, t: Table)
    requires forall id :: IsPending(rows, id) ==> IsPending(t, id) && t[id].proposal == rows[id].proposal
    ensures PendingKeys(rows) <= PendingKeys(t)
  {
    hide *;
    forall k | k in PendingKeys(rows) ensures k in PendingKeys(t) {
      var id := Owner(rows, k);
      assert id in rows && id in t by { PendingIsRow(rows, id); PendingIsRow(t, id); }
      OwnKey(t, id);
    }
  }

  lemma PendingIsRow(rows: Table, id: nat)
    requires IsPending(rows, id)
    ensures id in rows
  {
  }

  lemma InsertedKeys(rows: Table, row: Row)
    requires row.proposal.id !in rows
    ensures PendingKeys(Inserted(rows, row)) == PendingKeys(rows) + (if row.decision.Pending? then {Key(row.proposal)} else {})
    ensures OnePendingPerKey(rows) && (row.decision.Pending? ==> Key(row.proposal) !in PendingKeys(rows)) ==>
              OnePendingPerKey(Inserted(rows, row))
  {
    var t := Inserted(rows, row);
    KeysGrow(rows, t);
    assert forall id :: id in rows ==> IsPending(rows, id) ==> Key(rows[id].proposal) in PendingKeys(rows);
    hide PendingKeys;
    if row.decision.Pending? { OwnKey(t, row.proposal.id); }
    forall k | k in PendingKeys(t)
      ensures k in PendingKeys(rows) || (row.decision.Pending? && k == Key(row.proposal))
    {
      var id := Owner(t, k);
      if id != row.proposal.id { OwnKey(rows, id); }
    }
  }

  /** Deciding a row takes exactly its own key out of the pending ones. */
  lemma DecidedKeys(rows: Table, t: Table, id: nat)
    requires id in rows && t.Keys == rows.Keys && !t[id].decision.Pending?
    requires forall i :: i in rows && i != id ==> t[i] == rows[i]
    requires OnePendingPerKey(rows)
    ensures OnePendingPerKey(t)
    ensures PendingKeys(t) == PendingKeys(rows) - (if IsPending(rows, id) then {Key(rows[id].proposal)} else {})
    ensures IsPending(rows, id) ==> Key(rows[id].proposal) in PendingKeys(rows)
  {
    assert forall i :: IsPending(t, i) ==> i != id && IsPending(rows, i) && t[i] == rows[i];
    KeysGrow(t, rows);
    if IsPending(rows, id) { OwnKey(rows, id); }
    hide PendingKeys;
    forall k | k in PendingKeys(rows) && !(IsPending(rows, id) && k == Key(rows[id].proposal)) ensures k in PendingKeys(t) {
      var i := Owner(rows, k);
      OwnKey(t, i);
    }
    forall k | k in PendingKeys(t) ensures !(IsPending(rows, id) && k == Key(rows[id].proposal)) {
      var i := Owner(t, k);
    }
  }

  lemma ResultKeys(rows: Table, r: Actuator.Report)
    ensures PendingKeys(ResultIn(rows, r)) == PendingKeys(rows)
    ensures OnePendingPerKey(rows) ==> OnePendingPerKey(ResultIn(rows, r))
  {
    var t := ResultIn(rows, r);
    assert forall i :: i in rows ==> t[i].proposal == rows[i].proposal && t[i].decision == rows[i].decision;
    assert forall i :: IsPending(t, i) <==> IsPending(rows, i);
    hide ResultIn;
    KeysGrow(rows, t);
    KeysGrow(t, rows);
  }

  /** From agreement, an operation keeps agreement exactly when it is none of those that drift. */
  lemma KeepsInSyncExactlyWhen(s: State, op: Op)
    requires InSync(s)
    ensures InSync(Next(s, op)) <==> !Drifts(s, op)
  {
    StepKeys(s, op);
  }

  /** The same step seen through the keys alone. */
  lemma StepKeys(s: State, op: Op)
    requires OnePendingPerKey(s.rows)
    ensures match op
            case Insert(p, _, write) =>
              var added := Key(p) !in s.pendingKeys && !write.Failed? && p.id !in s.rows;
              && PendingKeys(Next(s, op).rows) == PendingKeys(s.rows) + (if added then {Key(p)} else {})
              && ((added && Key(p) in PendingKeys(s.rows)) || OnePendingPerKey(Next(s, op).rows))
            case Approve(id, _, _, _, _, write) =>
              && PendingKeys(Next(s, op).rows) ==
                 PendingKeys(s.rows) - (if IsPending(s.rows, id) && !write.Failed? then {Key(s.rows[id].proposal)} else {})
              && OnePendingPerKey(Next(s, op).rows)
              && (IsPending(s.rows, id) ==> Key(s.rows[id].proposal) in PendingKeys(s.rows))
            case Reject(id, _, _, _, _, write) =>
              && PendingKeys(Next(s, op).rows) ==
                 PendingKeys(s.rows) - (if IsPending(s.rows, id) && !write.Failed? then {Key(s.rows[id].proposal)} else {})
              && OnePendingPerKey(Next(s, op).rows)
              && (IsPending(s.rows, id) ==> Key(s.rows[id].proposal) in PendingKeys(s.rows))
            case _ => PendingKeys(Next(s, op).rows) == PendingKeys(s.rows) && OnePendingPerKey(Next(s, op).rows)
  {
    hide PendingKeys, OnePendingPerKey;
    match op
    case Insert(p, sig, write) =>
      if p.id !in s.rows { InsertedKeys(s.rows, Row(p, Pending, None, None, None, sig)); }
    case InsertAutoApproved(p, c, signature, sig, write) =>
      if p.id !in s.rows { InsertedKeys(s.rows, Row(p, Approved(PolicyAuto), Some(c), signature, None, sig)); }
    case Approve(id, approver, c, signature, _, _) =>
      if IsPending(s.rows, id) { OwnKey(s.rows, id); DecidedKeys(s.rows, ApprovedIn(s.rows, id, approver, c, signature), id); }
    case Reject(id, user, at, reason, _, _) =>
      if id in s.rows { DecidedKeys(s.rows, RejectedIn(s.rows, id, user, at, reason), id); }
    case RecordResult(report, _) => ResultKeys(s.rows, report);
    case Restart =>
  }

  /** Only a lost insertion leaves a pending row out of the cache. */
  lemma KeepsCovered(s: State, op: Op)
    requires Covered(s)
    ensures Covered(Next(s, op)) <==> !InsertLost(s, op)
  {
    StepKeys(s, op);
  }

  predicate NeverDrifts(r: Run) { r.Then? ==> NeverDrifts(r.before) && !Drifts(At(r.before), r.op) }

  predicate NoInsertLost(r: Run) { r.Then? ==> NoInsertLost(r.before) && !InsertLost(At(r.before), r.op) }

  function InitialRows(r: Run): Table { match r case Start(rows) => rows case Then(before, _) => InitialRows(before) }

  /** In every run without a drifting operation the cache is the set of keys of the pending rows, at
      most one row is pending per key, and rebuilding the cache at a restart changes nothing. */
  lemma {:induction false} CacheIsPendingKeys(r: Run)
    requires OnePendingPerKey(InitialRows(r)) && NeverDrifts(r)
    ensures InSync(At(r)) && Next(At(r), Restart) == At(r)
  {
    hide Next, Drifts;
    match r
    case Start(_) => RestartRebuilds(At(r));
    case Then(before, op) =>
      CacheIsPendingKeys(before);
      KeepsInSyncExactlyWhen(At(before), op);
      RestartRebuilds(At(r));
  }

  lemma RestartRebuilds(s: State)
    ensures Next(s, Restart) == State(s.rows, PendingKeys(s.rows))
  {
  }

  /** Even with failing reads and updates, duplicates never become pending together, as long as no
      insertion takes effect unacknowledged; and a restart brings the cache back in line. */
  lemma {:induction false} OnePendingRowPerKey(r: Run)
    requires OnePendingPerKey(InitialRows(r)) && NoInsertLost(r)
    ensures Covered(At(r)) && InSync(Next(At(r), Restart))
  {
    hide Next, InsertLost;
    match r
    case Start(_) => RestartRebuilds(At(r));
    case Then(before, op) =>
      OnePendingRowPerKey(before);
      KeepsCovered(At(before), op);
      RestartRebuilds(At(r));
  }

  /** Some pending row of the table asks for the same as `p`. */
  predicate AskedAlready(rows: Table, p: Proposal) {
    exists id :: id in rows && rows[id].decision == Pending && rows[id].proposal.templateId == p.templateId
                 && rows[id].proposal.agentId == p.agentId && rows[id].proposal.params == p.params
  }

  lemma AskedAlreadyIsCached(s: State, p: Proposal)
    requires InSync(s)
    ensures AskedAlready(s.rows, p) <==> Key(p) in s.pendingKeys
  {
    if AskedAlready(s.rows, p) {
      var id :| IsPending(s.rows, id) && SameRequest(s.rows[id].proposal, p);
      OwnKey(s.rows, id);
    }
    if Key(p) in s.pendingKeys {
      var id := Owner(s.rows, Key(p));
      KeysTellRequestsApart(s.rows[id].proposal, p);
    }
  }

  /** Which proposals are raised: after any run without a drifting operation, an acknowledged insertion
      under a new id adds its proposal, pending and otherwise blank, exactly when no pending row has the
      same template, the same agent and equal parameters; nothing else of the table changes. */
  lemma RaisedExactlyWhenNotAsked(r: Run, p: Proposal, sig: string)
    requires OnePendingPerKey(InitialRows(r)) && NeverDrifts(r) && p.id !in At(r).rows
    ensures var (rows, rows') := (At(r).rows, Next(At(r), Insert(p, sig, Answered)).rows);
            rows' == if AskedAlready(rows, p) then rows else rows[p.id := Row(p, Pending, None, None, None, sig)]
  {
    CacheIsPendingKeys(r);
    AskedAlreadyIsCached(At(r), p);
    hide At, AskedAlready, NeverDrifts, InSync, Key;
  }

  /** The same for a proposal that policy approves by itself: it is recorded as decided, with its command. */
  lemma AutoApprovedExactlyWhenNotAsked(r: Run, p: Proposal, commandId: nat, signature: Option<Crypto.Signature>, sig: string)
    requires OnePendingPerKey(InitialRows(r)) && NeverDrifts(r) && p.id !in At(r).rows
    ensures var (rows, rows') := (At(r).rows, Next(At(r), InsertAutoApproved(p, commandId, signature, sig, Answered)).rows);
            rows' == if AskedAlready(rows, p) then rows
                     else rows[p.id := Row(p, Approved(PolicyAuto), Some(commandId), signature, None, sig)]
  {
    CacheIsPendingKeys(r);
    AskedAlreadyIsCached(At(r), p);
    hide At, AskedAlready, NeverDrifts, InSync, Key;
  }

  /** What an approval that takes effect writes, and where: the decision with its approver, the command and
      its signature, on that row alone and only while it is pending. */
  lemma ApprovalWritesPendingRowOnly(s: State, id: nat, approver: ApprovalRef, commandId: nat,
                                     signature: Option<Crypto.Signature>, read: bool, write: Io)
    requires !write.Failed?
    ensures var rows' := Next(s, Approve(id, approver, commandId, signature, read, write)).rows;
            && rows'.Keys == s.rows.Keys
            && (forall other :: other in s.rows && (other != id || s.rows[other].decision != Pending) ==> rows'[other] == s.rows[other])
            && (id in s.rows && s.rows[id].decision == Pending ==>
                  var was := s.rows[id];
                  rows'[id] == Row(was.proposal, Approved(approver), Some(commandId), signature, was.result, was.faultSignature))
  {
  }

  /** A decided row never turns pending again and keeps its proposal, command and signature, whatever
      is done to it and however the database answers. It need not keep its decision. */
  lemma DecidedKeepsItsCommand(s: State, op: Op, id: nat)
    requires id in s.rows && !IsPending(s.rows, id)
    ensures var rows := Next(s, op).rows;
            && id in rows && !IsPending(rows, id)
            && rows[id].proposal == s.rows[id].proposal
            && rows[id].commandId == s.rows[id].commandId
            && rows[id].signature == s.rows[id].signature
  {
    hide Key, PendingKeys;
  }

  /** What changes a decision: a decided row has another decision afterwards exactly when it was
      rejected, by an update that took effect, by another user, at another time or for another reason
      than it had been rejected before. */
  lemma DecisionChangesExactlyWhenRejected(s: State, op: Op, id: nat)
    requires id in s.rows && !IsPending(s.rows, id)
    ensures Next(s, op).rows[id].decision == s.rows[id].decision <==>
            !(op.Reject? && op.id == id && !op.write.Failed? && s.rows[id].decision != Rejected(op.user, op.at, op.reason))
  {
    hide Key, PendingKeys;
  }

  /** A rejection that takes effect, acknowledged or not, overwrites whatever was decided before, and
      for a decided row leaves the cache alone. */
  lemma RejectionIsUnguarded(s: State, id: nat, user: string, at: int, reason: Option<string>, read: bool, write: Io)
    requires id in s.rows && !write.Failed?
    ensures var (was, rows') := (s.rows[id], Next(s, Reject(id, user, at, reason, read, write)).rows);
            && rows'.Keys == s.rows.Keys && (forall other :: other in s.rows && other != id ==> rows'[other] == s.rows[other])
            && rows'[id] == Row(was.proposal, Rejected(user, at, reason), was.commandId, was.signature, was.result, was.faultSignature)
    ensures !IsPending(s.rows, id) ==> Next(s, Reject(id, user, at, reason, read, write)).pendingKeys == s.pendingKeys
  {
  }

  /** A lost insertion is what it takes: the same proposal raised again, under a fresh id, then stands
      in the table twice. */
  lemma LostInsertDuplicates(s: State, p: Proposal, again: nat, sig: string)
    requires InSync(s) && InsertLost(s, Insert(p, sig, Unacknowledged)) && again !in s.rows && again != p.id
    ensures !OnePendingPerKey(Next(Next(s, Insert(p, sig, Unacknowledged)), Insert(p.(id := again), sig, Answered)).rows)
  {
    var s1 := Next(s, Insert(p, sig, Unacknowledged));
    var s2 := Next(s1, Insert(p.(id := again), sig, Answered));
    assert IsPending(s2.rows, p.id) && IsPending(s2.rows, again);
  }

  // ---- the code ----

  class RemediationStore {
    var rows: Table
    var pendingKeys: set<DedupKey>

    ghost function View(): State
      reads this
    {
      State(rows, pendingKeys)
    }

    /** `RemediationStore::new` over a table that could be listed. */
    constructor (rows: Table)
      ensures View() == At(Start(rows))
    {
      this.rows := rows;
      this.pendingKeys := set id | id in rows && rows[id].decision.Pending? :: Key(rows[id].proposal);
    }

    method Insert(p: Proposal, faultSignature: string, write: Io) returns (id: Option<nat>)
      modifies this
      ensures View() == Next(old(View()), Op.Insert(p, faultSignature, write))
      ensures id == if Key(p) !in old(pendingKeys) && write.Answered? then Some(p.id) else None
    {
      var key := Key(p);
      if key in pendingKeys {
        return None;
      }
      if write != Failed && p.id !in rows {
        rows := rows[p.id := Row(p, Pending, None, None, None, faultSignature)];
      }
      if write != Answered {
        return None;
      }
      pendingKeys := pendingKeys + {key};
      id := Some(p.id);
    }

    method InsertAutoApproved(p: Proposal, commandId: nat, signature: Option<Crypto.Signature>, faultSignature: string, write: Io)
      returns (id: Option<nat>)
      modifies this
      ensures View() == Next(old(View()), Op.InsertAutoApproved(p, commandId, signature, faultSignature, write))
      ensures id == if Key(p) !in old(pendingKeys) && write.Answered? then Some(p.id) else None
    {
      if Key(p) in pendingKeys {
        return None;
      }
      if write != Failed && p.id !in rows {
        rows := rows[p.id := Row(p, Approved(PolicyAuto), Some(commandId), signature, None, faultSignature)];
      }
      id := if write == Answered then Some(p.id) else None;
    }

    /** The proposal of a pending row; a read that fails finds none. */
    method PendingProposal(id: nat, read: bool) returns (p: Option<Proposal>)
      ensures p == if read && IsPending(rows, id) then Some(rows[id].proposal) else None
    {
      p := if read && IsPending(rows, id) then Some(rows[id].proposal) else None;
    }

    method Approve(id: nat, approver: ApprovalRef, commandId: nat, signature: Option<Crypto.Signature>, read: bool, write: Io)
      returns (found: bool)
      modifies this
      ensures View() == Next(old(View()), Op.Approve(id, approver, commandId, signature, read, write))
      ensures found <==> write.Answered? && IsPending(old(rows), id)
    {
      var seen := PendingProposal(id, read);
      found := IsPending(rows, id);
      if write != Failed && found {
        rows := rows[id := rows[id].(decision := Approved(approver), commandId := Some(commandId), signature := signature)];
      }
      found := found && write == Answered;
      if found && seen.Some? {
        pendingKeys := pendingKeys - {Key(seen.value)};
      }
    }

    /** Unlike an approval, a rejection also overwrites a row that was decided before. */
    method Reject(id: nat, user: string, at: int, reason: Option<string>, read: bool, write: Io) returns (found: bool)
      modifies this
      ensures View() == Next(old(View()), Op.Reject(id, user, at, reason, read, write))
      ensures found <==> write.Answered? && id in old(rows)
    {
      var seen := PendingProposal(id, read);
      found := id in rows;
      if write != Failed && found {
        rows := rows[id := rows[id].(decision := Rejected(user, at, reason))];
      }
      found := found && write == Answered;
      if found && seen.Some? {
        pendingKeys := pendingKeys - {Key(seen.value)};
      }
    }

    method RecordResult(report: Actuator.Report, write: Io) returns (closed: set<nat>)
      modifies this
      ensures View() == Next(old(View()), Op.RecordResult(report, write))
      ensures closed == if write.Answered? then set id | id in old(rows) && old(rows)[id].commandId == Some(report.commandId) else {}
    {
      closed := if write == Answered then set id | id in rows && rows[id].commandId == Some(report.commandId) else {};
      if write != Failed {
        rows := map id | id in rows :: if rows[id].commandId == Some(report.commandId) then rows[id].(result := Some(report)) else rows[id];
      }
    }
  }
}
