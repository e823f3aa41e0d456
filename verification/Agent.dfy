/**
The unprivileged agent's command relay (crates/ravn-agent/src/remediation.rs:67-140 and 382-417): an
on-disk ledger of handled command ids, written before a command is handed to the actuator.

Disk is durable across crashes and a ledger line is appended as a whole or not at all. How an append
ends, what the actuator answers and when the agent crashes are arbitrary.
*/
module Agent {
  import opened Options
  import Crypto
  import Actuator

  /** How appending a line ended; the error may be reported although the line made it to disk. */
  datatype Append = Written | NotWritten | WrittenButFailed

  /** A ledger line, parsed: a command id, or text that is none. */
  type Line = Option<nat>

  ghost function Ids(lines: seq<Line>): set<nat> { set l | l in lines && l.Some? :: l.value }

  // ---- one command as a machine of four steps ----

  datatype Phase =
    | Idle
    | Unhandled(env: Crypto.Envelope)
    | Verified(env: Crypto.Envelope, ring: Crypto.Keyring, now: int)
    | Recorded(env: Crypto.Envelope, ring: Crypto.Keyring, now: int)

  /** One hand-over to the actuator, with the ring and time the envelope was verified under. */
  datatype Sent = Sent(env: Crypto.Envelope, ring: Crypto.Keyring, now: int)

  datatype State = State(disk: set<nat>, seen: set<nat>, phase: Phase, sent: seq<Sent>)

  datatype Event =
    | Look(env: Crypto.Envelope)
    | CheckSignature(ring: Crypto.Keyring, now: int)
    | Record(append: Append)
    | Send
    | Crash(readable: bool)

  function Id(env: Crypto.Envelope): nat { env.payload.commandId }

  function Next(s: State, e: Event): State {
    match e
    case Look(env) => if s.phase.Idle? && Id(env) !in s.seen then s.(phase := Unhandled(env)) else s
    case CheckSignature(ring, now) =>
      if !s.phase.Unhandled? then s
      else s.(phase := if Crypto.VerifyWith(ring, s.phase.env, now).Ok? then Verified(s.phase.env, ring, now) else Idle)
    case Record(append) => if s.phase.Verified? then Recording(s, append) else s
    case Send =>
      if s.phase.Recorded? then s.(phase := Idle, sent := s.sent + [Sent(s.phase.env, s.phase.ring, s.phase.now)]) else s
    case Crash(readable) => s.(phase := Idle, seen := if readable then s.disk else {})
  }

  /** `Ledger::record`: an id already in memory is not written again; a new one stays in memory
      even when writing it fails. */
  function Recording(s: State, append: Append): State
    requires s.phase.Verified?
  {
    var p := s.phase;
    if Id(p.env) in s.seen then s.(phase := Recorded(p.env, p.ring, p.now))
    else
      State(if append.NotWritten? then s.disk else s.disk + {Id(p.env)}, s.seen + {Id(p.env)},
            if append.Written? then Recorded(p.env, p.ring, p.now) else Idle, s.sent)
  }

  /** A run: a ledger found on disk at the first start, then any steps and crashes in any order. A
      step that does not fit the phase changes nothing. */
  datatype Run = Start(disk: set<nat>) | Then(before: Run, event: Event)

  function At(r: Run): State {
    match r
    case Start(disk) => State(disk, disk, Idle, [])
    case Then(before, e) => Next(At(before), e)
  }

  /** Every restart could read the ledger file. */
  predicate AlwaysReadable(r: Run) {
    r.Then? ==> AlwaysReadable(r.before) && (r.event.Crash? ==> r.event.readable)
  }

  ghost predicate SentId(sent: seq<Sent>, id: nat) { exists i :: 0 <= i < |sent| && Id(sent[i].env) == id }

  ghost predicate AllOnce(sent: seq<Sent>) {
    forall i, j :: 0 <= i < j < |sent| ==> Id(sent[i].env) != Id(sent[j].env)
  }

  /** Everything sent verified when it was, and so did what is about to be. */
  ghost predicate AllVerified(s: State) {
    && (forall i :: 0 <= i < |s.sent| ==> Crypto.VerifyWith(s.sent[i].ring, s.sent[i].env, s.sent[i].now).Ok?)
    && (s.phase.Verified? || s.phase.Recorded? ==> Crypto.VerifyWith(s.phase.ring, s.phase.env, s.phase.now).Ok?)
  }

  lemma {:induction false} EverythingSentVerified(r: Run)
    ensures AllVerified(At(r))
  {
    hide Crypto.VerifyWith;
    if r.Then? { EverythingSentVerified(r.before); }
  }

  /** What every step and every crash keeps, as long as the ledger can be read. */
  ghost predicate Safe(s: State) {
    && AllVerified(s)
    && s.disk <= s.seen
    && (forall i :: 0 <= i < |s.sent| ==> Id(s.sent[i].env) in s.disk)
    && AllOnce(s.sent)
    && (s.phase.Unhandled? || s.phase.Verified? ==> Id(s.phase.env) !in s.seen)
    && (s.phase.Recorded? ==> Id(s.phase.env) in s.disk && !SentId(s.sent, Id(s.phase.env)))
  }

  lemma StepKeepsSafe(s: State, e: Event)
    requires Safe(s) && (e.Crash? ==> e.readable)
    ensures Safe(Next(s, e))
  {
    hide Crypto.VerifyWith;
    if e.Send? && s.phase.Recorded? {
      forall i | 0 <= i < |s.sent| ensures Id(s.sent[i].env) != Id(s.phase.env) {
        assert SentId(s.sent, Id(s.sent[i].env));
      }
    }
  }

  /** At most once: whatever is delivered, however often, and wherever the agent crashes, no command
      id is handed to the actuator twice, each one handed over is on disk, and each envelope verified
      when it was. */
  lemma {:induction false} AtMostOnce(r: Run)
    requires AlwaysReadable(r)
    ensures Safe(At(r))
  {
    match r
    case Start(_) =>
    case Then(before, e) =>
      AtMostOnce(before);
      StepKeepsSafe(At(before), e);
  }

  /** The four steps of one delivery, without a crash. */
  function Process(s: State, env: Crypto.Envelope, ring: Crypto.Keyring, now: int, append: Append): State {
    Next(Next(Next(Next(s, Look(env)), CheckSignature(ring, now)), Record(append)), Send)
  }

  function Sends(s: State, env: Crypto.Envelope, ring: Crypto.Keyring, now: int, append: Append): bool {
    Id(env) !in s.seen && Crypto.VerifyWith(ring, env, now).Ok? && append.Written?
  }

  lemma ProcessSends(s: State, env: Crypto.Envelope, ring: Crypto.Keyring, now: int, append: Append)
    requires s.phase.Idle?
    ensures var t := Process(s, env, ring, now, append);
            && t.phase.Idle?
            && t.sent == (if Sends(s, env, ring, now, append) then s.sent + [Sent(env, ring, now)] else s.sent)
            && t.seen == (if Crypto.VerifyWith(ring, env, now).Ok? then s.seen + {Id(env)} else s.seen)
            && t.disk == (if Id(env) !in s.seen && Crypto.VerifyWith(ring, env, now).Ok? && !append.NotWritten?
                          then s.disk + {Id(env)} else s.disk)
  {
    hide Crypto.VerifyWith;
  }

  // ---- when the ledger forgets ----

  /** How many had been sent at the last restart that could not read the ledger. */
  function LastForgotten(r: Run): nat {
    match r
    case Start(_) => 0
    case Then(before, e) => if e == Crash(false) then |At(before).sent| else LastForgotten(before)
  }

  /** Between the `i`-th and the `j`-th hand-over came a restart that could not read the ledger. */
  predicate ForgottenBetween(r: Run, i: nat, j: nat) {
    r.Then? && (ForgottenBetween(r.before, i, j) || (r.event == Crash(false) && i < |At(r.before).sent| <= j))
  }

  /** What every step and every crash keeps, the ledger readable or not: everything sent is on disk, and
      what was sent from `m` on is in memory, once. */
  ghost predicate SafeFrom(s: State, m: nat) {
    && m <= |s.sent|
    && (forall i :: 0 <= i < |s.sent| ==> Id(s.sent[i].env) in s.disk)
    && (forall i :: m <= i < |s.sent| ==> Id(s.sent[i].env) in s.seen)
    && (forall i, j :: m <= i < j < |s.sent| ==> Id(s.sent[i].env) != Id(s.sent[j].env))
    && (s.phase.Unhandled? || s.phase.Verified? ==> Id(s.phase.env) !in s.seen)
    && (s.phase.Recorded? ==>
          && Id(s.phase.env) in s.disk && Id(s.phase.env) in s.seen
          && forall i :: m <= i < |s.sent| ==> Id(s.sent[i].env) != Id(s.phase.env))
  }

  lemma {:induction false} SafeSinceForgotten(r: Run)
    ensures SafeFrom(At(r), LastForgotten(r))
  {
    hide Crypto.VerifyWith;
    if r.Then? { SafeSinceForgotten(r.before); }
  }

  lemma {:induction false} ForgottenAtTheLast(r: Run, i: nat, j: nat)
    requires i < LastForgotten(r) <= j
    ensures ForgottenBetween(r, i, j)
  {
    hide At;
    if r.Then? && r.event != Crash(false) { ForgottenAtTheLast(r.before, i, j); }
  }

  lemma {:induction false} ReadableForgetsNothing(r: Run, i: nat, j: nat)
    requires AlwaysReadable(r)
    ensures !ForgottenBetween(r, i, j)
  {
    hide At;
    if r.Then? { ReadableForgetsNothing(r.before, i, j); }
  }

  /** Over every run whatsoever, unreadable ledgers included: when one command id was handed over twice,
      a restart that could not read the ledger lies between the two. */
  lemma {:induction false} SentTwiceOnlyIfForgotten(r: Run, i: nat, j: nat)
    requires i < j < |At(r).sent| && Id(At(r).sent[i].env) == Id(At(r).sent[j].env)
    ensures ForgottenBetween(r, i, j)
  {
    hide Crypto.VerifyWith;
    if r.Then? {
      if j < |At(r.before).sent| {
        SentTwiceOnlyIfForgotten(r.before, i, j);
      } else {
        SafeSinceForgotten(r.before);
        SafeSinceForgotten(r);
        ForgottenAtTheLast(r, i, j);
      }
    }
  }

  /** And each such restart is one: after any run, a command already sent and delivered again after a
      restart is sent again exactly when the restart failed to read the file, as long as the envelope
      still verifies and the append succeeds. */
  lemma SentAgainExactlyWhenLedgerWasUnreadable(
      r: Run, readable: bool, i: nat, ring: Crypto.Keyring, now: int)
    requires i < |At(r).sent|
    requires Crypto.VerifyWith(ring, At(r).sent[i].env, now).Ok?
    ensures var env := At(r).sent[i].env;
            var t := Process(Next(At(r), Crash(readable)), env, ring, now, Written);
            && t.sent == (if readable then At(r).sent else At(r).sent + [Sent(env, ring, now)])
            && (AlwaysReadable(r) ==> (AllOnce(t.sent) <==> readable))
  {
    hide Crypto.VerifyWith;
    var s, env := At(r), At(r).sent[i].env;
    SafeSinceForgotten(r);
    if AlwaysReadable(r) { AtMostOnce(r); }
    var restarted := Next(s, Crash(readable));
    ProcessSends(restarted, env, ring, now, Written);
    var t := Process(restarted, env, ring, now, Written);
    if !readable {
      assert Id(t.sent[i].env) == Id(t.sent[|s.sent|].env);
    }
  }

  // ---- the code ----

  class Ledger {
    var disk: seq<Line>
    var seen: set<nat>

    /** `Ledger::load`: the ids of the lines that parse; nothing when the file cannot be read. */
    constructor Load(file: seq<Line>, readable: bool)
      ensures disk == file && seen == if readable then Ids(file) else {}
    {
      disk := file;
      var ids: set<nat> := {};
      if readable {
        for i := 0 to |file|
          invariant ids == Ids(file[..i])
        {
          assert file[..i + 1] == file[..i] + [file[i]];
          if file[i].Some? {
            ids := ids + {file[i].value};
          }
        }
        assert file[..|file|] == file;
      }
      seen := ids;
    }

    method Contains(id: nat) returns (r: bool)
      ensures r <==> id in seen
    {
      r := id in seen;
    }

    method Record(id: nat, append: Append) returns (ok: bool)
      modifies this
      ensures ok <==> id in old(seen) || append.Written?
      ensures seen == old(seen) + {id}
      ensures disk == if id in old(seen) || append.NotWritten? then old(disk) else old(disk) + [Some(id)]
    {
      ok := true;
      if id !in seen {
        seen := seen + {id};
        if append != NotWritten {
          disk := disk + [Some(id)];
        }
        ok := append == Written;
      }
    }
  }

  lemma IdsAppended(lines: seq<Line>, id: nat)
    ensures Ids(lines + [Some(id)]) == Ids(lines) + {id}
  {
    assert (lines + [Some(id)])[|lines|] == Some(id);
  }

  /** The state the ledger stands for between two commands. */
  ghost function View(ledger: Ledger, sent: seq<Sent>): State
    reads ledger
  {
    State(Ids(ledger.disk), ledger.seen, Idle, sent)
  }

  /** What the agent reports, if anything. */
  function Reply(env: Crypto.Envelope, verified: bool, unseen: bool, recorded: bool, answer: Option<Actuator.Report>)
    : Option<Actuator.Report>
  {
    if !unseen then None
    else if !verified then Some(Actuator.Report(Id(env), Actuator.Rejected, None))
    else if !recorded then None
    else if answer.Some? then answer
    else Some(Actuator.Report(Id(env), Actuator.Failed, None))
  }

  /** `process_command`; `answer` is what the actuator says if the command reaches it. */
  method ProcessCommand(env: Crypto.Envelope, ring: Crypto.Keyring, ledger: Ledger, now: int,
                        append: Append, answer: Option<Actuator.Report>, ghost sent: seq<Sent>)
    returns (result: Option<Actuator.Report>, ghost nowSent: seq<Sent>)
    modifies ledger
    ensures View(ledger, nowSent) == Process(old(View(ledger, sent)), env, ring, now, append)
    ensures result == Reply(env, Crypto.VerifyWith(ring, env, now).Ok?, Id(env) !in old(ledger.seen), append.Written?, answer)
  {
    hide Crypto.VerifyWith;
    nowSent := sent;
    ProcessSends(View(ledger, sent), env, ring, now, append);
    var known := ledger.Contains(Id(env));
    if known {
      return None, sent;
    }
    if Crypto.VerifyWith(ring, env, now).Err? {
      return Some(Actuator.Report(Id(env), Actuator.Rejected, None)), sent;
    }
    IdsAppended(ledger.disk, Id(env));
    var recorded := ledger.Record(Id(env), append);
    if !recorded {
      return None, sent;
    }
    nowSent := sent + [Sent(env, ring, now)];
    result := if answer.Some? then answer else Some(Actuator.Report(Id(env), Actuator.Failed, None));
  }

  /** What surrounds each envelope of one poll: the ring and clock read for it, and how it fared. */
  datatype Around = Around(ring: Crypto.Keyring, now: int, append: Append, answer: Option<Actuator.Report>)

  function Handled(r: Run, env: Crypto.Envelope, a: Around): Run {
    Then(Then(Then(Then(r, Look(env)), CheckSignature(a.ring, a.now)), Record(a.append)), Send)
  }

  /** The run of one poll: every envelope of the batch through the four steps. */
  function Polled(r: Run, envs: seq<Crypto.Envelope>, around: nat -> Around): Run
    decreases |envs|
  {
    if envs == [] then r
    else
      var n := |envs| - 1;
      Handled(Polled(r, envs[..n], around), envs[n], around(n))
  }

  /** The reports posted for one poll. */
  function Posts(r: Run, envs: seq<Crypto.Envelope>, around: nat -> Around): seq<Actuator.Report>
    decreases |envs|
  {
    if envs == [] then []
    else
      var n, before := |envs| - 1, envs[..|envs| - 1];
      var reply := ReplyAt(At(Polled(r, before, around)).seen, envs[n], around(n));
      if reply.Some? then Posts(r, before, around) + [reply.value] else Posts(r, before, around)
  }

  function ReplyAt(seen: set<nat>, env: Crypto.Envelope, a: Around): Option<Actuator.Report> {
    Reply(env, Crypto.VerifyWith(a.ring, env, a.now).Ok?, Id(env) !in seen, a.append.Written?, a.answer)
  }

  /** The ids the ledger knows when the `i`-th envelope of the batch is looked at. */
  function KnownAt(r: Run, envs: seq<Crypto.Envelope>, around: nat -> Around, i: nat): set<nat>
    requires i < |envs|
  {
    At(Polled(r, envs[..i], around)).seen
  }

  /** The `i`-th envelope is answered with `report`: a rejection if it does not verify; else, once it is on the
      ledger, the actuator's answer, or a failure if there is none. */
  predicate AnsweredWith(r: Run, envs: seq<Crypto.Envelope>, around: nat -> Around, i: nat, report: Actuator.Report)
    requires i < |envs|
  {
    var (env, a) := (envs[i], around(i));
    && env.payload.commandId !in KnownAt(r, envs, around, i)
    && if Crypto.VerifyWith(a.ring, env, a.now).Err? then report == Actuator.Report(env.payload.commandId, Actuator.Rejected, None)
       else
         && a.append == Written
         && match a.answer
            case Some(answer) => report == answer
            case None => report == Actuator.Report(env.payload.commandId, Actuator.Failed, None)
  }

  /** No report is due for the `i`-th envelope: its id is known, or it verifies and the ledger did not take it. */
  predicate NothingDue(r: Run, envs: seq<Crypto.Envelope>, around: nat -> Around, i: nat)
    requires i < |envs|
  {
    var (env, a) := (envs[i], around(i));
    env.payload.commandId in KnownAt(r, envs, around, i) || (Crypto.VerifyWith(a.ring, env, a.now).Ok? && a.append != Written)
  }

  lemma DueOrNot(r: Run, envs: seq<Crypto.Envelope>, around: nat -> Around, i: nat)
    requires i < |envs|
    ensures match ReplyAt(KnownAt(r, envs, around, i), envs[i], around(i))
            case None => NothingDue(r, envs, around, i)
            case Some(report) => AnsweredWith(r, envs, around, i, report)
  {
    hide KnownAt, Crypto.VerifyWith;
  }

  lemma DueInPrefix(r: Run, envs: seq<Crypto.Envelope>, around: nat -> Around, n: nat, i: nat)
    requires i < n <= |envs|
    ensures KnownAt(r, envs[..n], around, i) == KnownAt(r, envs, around, i) && envs[..n][i] == envs[i]
  {
    assert envs[..n][..i] == envs[..i];
    hide At, Polled;
  }

  /** Nothing due is left out, made up, repeated or reordered: the posted reports are, one for one and in the
      order of the batch, the answers to the envelopes `js`, and to every other envelope none is due. */
  lemma {:induction false} PostsAreTheAnswers(r: Run, envs: seq<Crypto.Envelope>, around: nat -> Around) returns (js: seq<nat>)
    ensures |Posts(r, envs, around)| == |js|
    ensures forall m :: 0 <= m < |js| ==> js[m] < |envs| && AnsweredWith(r, envs, around, js[m], Posts(r, envs, around)[m])
    ensures forall m, n :: 0 <= m < n < |js| ==> js[m] < js[n]
    ensures forall i :: 0 <= i < |envs| && i !in js ==> NothingDue(r, envs, around, i)
    decreases |envs|
  {
    hide AnsweredWith, NothingDue, KnownAt, At, Polled, ReplyAt;
    if envs == [] {
      return [];
    }
    var n := |envs| - 1;
    var before := envs[..n];
    js := PostsAreTheAnswers(r, before, around);
    forall i: nat | i < n ensures NothingDue(r, before, around, i) <==> NothingDue(r, envs, around, i) {
      DueStays(r, envs, around, n, i);
    }
    DueOrNot(r, envs, around, n);
    LastPost(r, envs, around);
    forall m | 0 <= m < |js| ensures AnsweredWith(r, envs, around, js[m], Posts(r, envs, around)[m]) {
      DueStays(r, envs, around, n, js[m]);
      assert AnsweredWith(r, before, around, js[m], Posts(r, before, around)[m]);
    }
    if ReplyAt(KnownAt(r, envs, around, n), envs[n], around(n)).Some? {
      ghost var shorter := js;
      js := js + [n];
      forall i | 0 <= i < |envs| && i !in js ensures NothingDue(r, envs, around, i) {
        assert js[|shorter|] == n;
        assert i !in shorter;
      }
    }
  }

  lemma DueStays(r: Run, envs: seq<Crypto.Envelope>, around: nat -> Around, n: nat, i: nat)
    requires i < n <= |envs|
    ensures forall report :: AnsweredWith(r, envs[..n], around, i, report) <==> AnsweredWith(r, envs, around, i, report)
    ensures NothingDue(r, envs[..n], around, i) <==> NothingDue(r, envs, around, i)
  {
    hide KnownAt, Crypto.VerifyWith;
    DueInPrefix(r, envs, around, n, i);
  }

  lemma LastPost(r: Run, envs: seq<Crypto.Envelope>, around: nat -> Around)
    requires envs != []
    ensures var n := |envs| - 1;
            var reply := ReplyAt(KnownAt(r, envs, around, n), envs[n], around(n));
            Posts(r, envs, around) ==
            if reply.Some? then Posts(r, envs[..n], around) + [reply.value] else Posts(r, envs[..n], around)
  {
    hide ReplyAt, At, Polled;
  }

  /** After a poll every envelope of the batch has been dealt with: its id is on the ledger, or it did not
      verify. */
  lemma {:induction false} EveryEnvelopeIsDealtWith(r: Run, envs: seq<Crypto.Envelope>, around: nat -> Around, i: nat)
    requires i < |envs| && At(r).phase.Idle?
    ensures var (s, a) := (At(Polled(r, envs, around)), around(i));
            s.phase.Idle? && (envs[i].payload.commandId in s.seen || Crypto.VerifyWith(a.ring, envs[i], a.now).Err?)
    ensures At(r).seen <= At(Polled(r, envs, around)).seen
    decreases |envs|
  {
    hide *;
    var n := |envs| - 1;
    var before := Polled(r, envs[..n], around);
    PolledLast(r, envs, around);
    FourSteps(before, envs[n], around(n));
    if n > 0 { EveryEnvelopeIsDealtWith(r, envs[..n], around, if i < n then i else 0); } else { PolledNone(r, envs[..0], around); }
    ProcessSends(At(before), envs[n], around(n).ring, around(n).now, around(n).append);
    IdIs(envs[n]);
  }

  lemma PolledLast(r: Run, envs: seq<Crypto.Envelope>, around: nat -> Around)
    requires envs != []
    ensures Polled(r, envs, around) == Handled(Polled(r, envs[..|envs| - 1], around), envs[|envs| - 1], around(|envs| - 1))
  {
    hide Handled;
  }

  lemma PolledNone(r: Run, envs: seq<Crypto.Envelope>, around: nat -> Around)
    requires envs == []
    ensures Polled(r, envs, around) == r
  {
  }

  lemma IdIs(env: Crypto.Envelope)
    ensures Id(env) == env.payload.commandId
  {
  }

  /** What a report says about the protocol: a command that was sent is reported with the actuator's
      answer, or as failed without one; the only other report is a rejection, which leaves no trace in
      the ledger, so the command may be delivered again. */
  lemma ReportsMean(s: State, env: Crypto.Envelope, a: Around)
    requires s.phase.Idle?
    ensures var (reply, t) := (ReplyAt(s.seen, env, a), Process(s, env, a.ring, a.now, a.append));
            && (|t.sent| > |s.sent| ==>
                  reply == Some(if a.answer.Some? then a.answer.value else Actuator.Report(Id(env), Actuator.Failed, None)))
            && (t.sent == s.sent && reply.Some? ==>
                  && reply == Some(Actuator.Report(Id(env), Actuator.Rejected, None))
                  && Crypto.VerifyWith(a.ring, env, a.now).Err? && t.seen == s.seen && t.disk == s.disk)
            && (reply.None? ==> Id(env) in t.seen)
  {
    hide Process, Crypto.VerifyWith;
    ProcessSends(s, env, a.ring, a.now, a.append);
  }

  /** `poll_once` after the download: the whole batch in order; duplicates within it included. */
  method PollOnce(envs: seq<Crypto.Envelope>, ledger: Ledger, around: nat -> Around, ghost r: Run)
    returns (posted: seq<Actuator.Report>, ghost now: Run)
    requires View(ledger, At(r).sent) == At(r)
    modifies ledger
    ensures now == Polled(r, envs, around) && View(ledger, At(now).sent) == At(now)
    ensures AlwaysReadable(r) ==> AlwaysReadable(now)
    ensures posted == Posts(r, envs, around)
  {
    hide Process, Handled, Crypto.VerifyWith;
    posted, now := [], r;
    assert envs[..0] == [];
    for i := 0 to |envs|
      invariant now == Polled(r, envs[..i], around)
      invariant View(ledger, At(now).sent) == At(now)
      invariant AlwaysReadable(r) ==> AlwaysReadable(now)
      invariant posted == Posts(r, envs[..i], around)
    {
      var a := around(i);
      ghost var sent := At(now).sent;
      var result;
      result, sent := ProcessCommand(envs[i], a.ring, ledger, a.now, a.append, a.answer, sent);
      assert envs[..i + 1][..i] == envs[..i];
      FourSteps(now, envs[i], a);
      now := Handled(now, envs[i], a);
      if result.Some? {
        posted := posted + [result.value];
      }
    }
    assert envs[..|envs|] == envs;
  }

  lemma FourSteps(r: Run, env: Crypto.Envelope, a: Around)
    ensures At(Handled(r, env, a)) == Process(At(r), env, a.ring, a.now, a.append)
    ensures AlwaysReadable(r) ==> AlwaysReadable(Handled(r, env, a))
  {
    hide Next;
    var looked := Then(r, Look(env));
    var checked := Then(looked, CheckSignature(a.ring, a.now));
    var recorded := Then(checked, Event.Record(a.append));
    assert At(Then(recorded, Send)) == Next(At(recorded), Send);
    assert At(recorded) == Next(At(checked), Event.Record(a.append));
    assert At(checked) == Next(At(looked), CheckSignature(a.ring, a.now));
    assert AlwaysReadable(r) ==> AlwaysReadable(checked);
  }
}
