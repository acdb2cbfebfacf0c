/**
 * The individual of the well-mixed SIR model (src/agent.py): a state code
 * and the number of days it has spent infectious. The agent itself only
 * answers two questions about its state; the engine writes its fields.
 */
module SirAgent {

  /** State codes, as the source numbers them. */
  const SUSC := 0
  const INF := 1
  const REC := 2

  datatype Agent = Agent(state: int, daysInfected: int)

  /** A fresh agent: the given state (susceptible by default), no days infected. */
  function NewAgent(state: int := SUSC): (a: Agent)
    ensures a.state == state && a.daysInfected == 0
  {
    Agent(state, 0)
  }

  predicate IsInfectious(a: Agent)
  {
    a.state == INF
  }

  predicate IsSusceptible(a: Agent)
  {
    a.state == SUSC
  }

  /** The codes the SIR model uses. */
  predicate ValidState(state: int)
  {
    state == SUSC || state == INF || state == REC
  }

  /**
   * A fresh default agent is susceptible and not infectious; no agent is both
   * infectious and susceptible, and a recovered agent is neither.
   */
  lemma PredicatesExclusive(a: Agent)
    ensures IsSusceptible(NewAgent()) && !IsInfectious(NewAgent())
    ensures !(IsInfectious(a) && IsSusceptible(a))
    ensures a.state == REC ==> !IsInfectious(a) && !IsSusceptible(a)
  {
  }

  /** The state codes of a list of agents, in order. */
  function States(agents: seq<Agent>): (states: seq<int>)
    ensures |states| == |agents|
    ensures forall i :: 0 <= i < |agents| ==> states[i] == agents[i].state
  {
    if agents == [] then [] else States(agents[..|agents| - 1]) + [agents[|agents| - 1].state]
  }
}
