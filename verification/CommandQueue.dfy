/**
The per-agent queue of signed commands waiting to be pulled
(crates/ravn-server/src/command.rs:171-198).
*/
module CommandQueue {
  import Crypto

  type Queues = map<nat, seq<Crypto.Envelope>>

  function Waiting(q: Queues, agent: nat): seq<Crypto.Envelope> { if agent in q then q[agent] else [] }

  function Queued(q: Queues, env: Crypto.Envelope): Queues {
    q[env.payload.agentId := Waiting(q, env.payload.agentId) + [env]]
  }

  function Drained(q: Queues, agent: nat): Queues { if agent in q then q[agent := []] else q }

  class CommandQueue {
    var pending: Queues

    constructor ()
      ensures pending == map[]
    {
      pending := map[];
    }

    method Enqueue(env: Crypto.Envelope)
      modifies this
      ensures pending == Queued(old(pending), env)
    {
      var agent := env.payload.agentId;
      if agent !in pending {
        pending := pending[agent := []];
      }
      pending := pending[agent := pending[agent] + [env]];
    }

    method TakeFor(agent: nat) returns (taken: seq<Crypto.Envelope>)
      modifies this
      ensures taken == Waiting(old(pending), agent)
      ensures pending == Drained(old(pending), agent)
    {
      taken := [];
      if agent in pending {
        taken := pending[agent];
        pending := pending[agent := []];
      }
    }
  }

  // ---- runs ----

  datatype Event = Put(env: Crypto.Envelope) | Take(agent: nat)

  datatype Run = Empty | Then(before: Run, event: Event)

  function At(r: Run): Queues {
    match r
    case Empty => map[]
    case Then(before, Put(env)) => Queued(At(before), env)
    case Then(before, Take(agent)) => Drained(At(before), agent)
  }

  /** Everything ever enqueued for the agent, in order. */
  function PutFor(r: Run, agent: nat): seq<Crypto.Envelope> {
    match r
    case Empty => []
    case Then(before, Put(env)) =>
      if env.payload.agentId == agent then PutFor(before, agent) + [env] else PutFor(before, agent)
    case Then(before, Take(_)) => PutFor(before, agent)
  }

  /** Everything the agent ever pulled, in order. */
  function TakenBy(r: Run, agent: nat): seq<Crypto.Envelope> {
    match r
    case Empty => []
    case Then(before, Put(_)) => TakenBy(before, agent)
    case Then(before, Take(a)) =>
      if a == agent then TakenBy(before, agent) + Waiting(At(before), agent) else TakenBy(before, agent)
  }

  /** Nothing is lost, duplicated, reordered or handed to another agent: what an agent pulled,
      followed by what still waits for it, is what was enqueued for it. */
  lemma {:induction false} Conserved(r: Run, agent: nat)
    ensures TakenBy(r, agent) + Waiting(At(r), agent) == PutFor(r, agent)
    ensures forall i :: 0 <= i < |PutFor(r, agent)| ==> PutFor(r, agent)[i].payload.agentId == agent
  {
    match r
    case Empty =>
    case Then(before, Put(env)) =>
      Conserved(before, agent);
      var was := Waiting(At(before), agent);
      if env.payload.agentId == agent {
        assert TakenBy(before, agent) + (was + [env]) == (TakenBy(before, agent) + was) + [env];
      }
    case Then(before, Take(a)) =>
      Conserved(before, agent);
  }
}
