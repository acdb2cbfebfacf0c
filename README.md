# Agent-based epidemic simulator, modelled in Dafny

This project models the core of an agent-based epidemic simulator. Each simulator is a population of individuals, and each individual carries a disease state and a timer. A simulated day:

1. scans the infectious individuals' contacts for newly exposed susceptible ones, without changing anyone;
2. applies those infections in one batch;
3. moves every timer on one day, firing a transition when a timer runs out;
4. appends the per-state counts to a history.

The model covers these parts of the simulator:

- the well-mixed SIR engine and its agent (`src/abm.py`, `src/agent.py`);
- the SEIR-D and SEIAR-D state machines (`src/seird/agent_seird.py`, `src/seiard/agent_seiard.py`);
- the older `Person` of the script simulation (`src/SEIR-D/person.py`);
- the phase helpers of the three network engines: construction, the termination test, the neighbour scan and the logging;
- the whole day loop of `src/SEIR-D/simulation.py`;
- the intervention manager and its two policies, Lockdown and Masks;
- the active-case estimator, with the S/I/I_cum series derived from it.

One Dafny module models each source file:

| module | file | form |
|---|---|---|
| `SirAgent` | `sir_agent.dfy` | the SIR agent as a datatype with predicates |
| `SirAbm` | `sir_abm.dfy` | class `Abm` over an `array<Agent>`; day functions and lemmas |
| `SeirdAgent` | `seird_agent.dfy` | class `AgentSeird`; pure transition functions `Infected`, `BecameInfectious`, `Progressed` |
| `SeiardAgent` | `seiard_agent.dfy` | class `AgentSeiard` with mask efficacy, age group and vaccination flag |
| `SeirdPerson` | `person.dfy` | class `Person` with the symptomatic flag |
| `SeirdNetwork` | `seird_network.dfy` | class `AbmNetworkSeird` |
| `SeiardNetwork` | `seiard_network.dfy` | class `AbmNetworkSeiard`, with the mask- and vaccination-aware scan |
| `SeiarNetwork` | `seiar_network.dfy` | class `AbmNetworkSeiar` over an `array<int>` of state codes |
| `Simulation` | `simulation.dfy` | the script's setup and day loop as methods over `seq<Person>` |
| `Interventions` | `interventions.dfy` | class `InterventionManager`; the policies as a datatype |
| `InterventionExamples` | `intervention_examples.dfy` | Lockdown's contact map and Masks' per-agent loop |
| `LoadData` | `load_data.dfy` | the two loops of the estimator as methods |
| `Common`, `History`, `Graph` | `common.dfy`, `history.dfy`, `graph.dfy` | counting, the history dictionary, the adjacency list |

**Randomness.** Every random draw is an input, so each operation is a deterministic transition.

- A `random.random()` is a `Uniform`, a real in [0, 1).
- A `np.random.normal` timer draw is the `int` it truncates to.
- `random.sample` is a sequence of indices.
- `random.randrange` and `random.choices` are a target index per attempt.

**Numbering.** State codes follow the code, not the comments.

- `S, E, I, R, D = range(5)` gives R = 3 and D = 4, although the comment lists 4 and 5.
- `range(6)` gives IS = 2 and IA = 3 for AgentSEIARD and Person.

## Model

| member | source | states |
|---|---|---|
| Common.AtLeastOneDay | src/seird/agent_seird.py:30 | `max(1, draw)`: at least one day; the draw itself when that is at least 1, else 1 |
| Common.Trunc | src/intervention/interventions_examples.py:16 | Python `int()` of a real truncates toward zero: the integer part for a non-negative value, rounding up for a negative one |
| Common.Count | src/seird/abm_network_seird.py:50-55 | `list.count`: never more than the length, and zero exactly when the value is absent |
| History.Empty | src/seird/abm_network_seird.py:31-32 | the history has exactly the model's labels, each with an empty list |
| History.Logged | src/seird/abm_network_seird.py:50-55 | logging keeps the labels and appends to each label's list the count of its state code, and nothing else |
| History.LogKeepsRecorded | src/seird/abm_network_seird.py:50-56 | logging a valid length-N state list keeps every list in step with history_states, and every entry is the count of its code on that day |
| History.EmptyRecorded | src/seird/abm_network_seird.py:31-32 | the empty history agrees with an empty history_states |
| SirAgent.NewAgent | src/agent.py:14-16 | a fresh agent has the given state (SUSC by default) and days_infected 0 |
| SirAgent.PredicatesExclusive | src/agent.py:9-26 | a fresh agent is susceptible and not infectious; no agent is both; a REC agent is neither |
| SirAbm.Attempts | src/abm.py:63-70 | one agent's contacts add at most one id per attempt, and every id added is a susceptible agent |
| SirAbm.Candidates | src/abm.py:56-70 | every candidate is a susceptible agent at scan time; there are at most (#infectious) × contacts_per_day candidates |
| SirAbm.AttemptsSound | src/abm.py:64-70 | every id one agent's attempts add is the target of one of its hits (target susceptible, draw below p_trans) |
| SirAbm.AttemptsComplete | src/abm.py:64-70 | the target of every hit is among the ids the agent's attempts add |
| SirAbm.AttemptsExactly | src/abm.py:64-70 | an id is added by one agent's attempts if and only if it is the target of one of its hits |
| SirAbm.CandidatesSound | src/abm.py:56-70 | every candidate of the scan of agents 0 .. n-1 comes from an attempt of an infectious agent whose target is susceptible and whose draw is below p_trans |
| SirAbm.CandidatesComplete | src/abm.py:56-70 | every such infecting attempt of agents 0 .. n-1 puts its target among the candidates |
| SirAbm.CandidatesExactly | src/abm.py:56-70 | an id is a candidate if and only if some attempt of agents 0 .. n-1 infects it |
| SirAbm.Infect | src/abm.py:72-77 | an agent becomes (INF, 0) exactly when its id was collected and it is still susceptible; every other agent is unchanged |
| SirAbm.InfectIgnoresDuplicate | src/abm.py:72-77 | a second copy of a collected id changes nothing |
| SirAbm.Tick | src/abm.py:79-84 | an INF agent's days_infected rises by exactly 1; it becomes REC exactly when the new value reaches infectious_days and stays INF otherwise; SUSC and REC agents are untouched |
| SirAbm.Ticked | src/abm.py:79-84 | phase 3 applies the timer update to every agent, each independently |
| SirAbm.DayTransitions | src/abm.py:56-84 | over a whole day nobody re-enters SUSC, a REC agent is untouched, and a valid code stays valid |
| SirAbm.DayKeepsValid | src/abm.py:56-84 | a day keeps every code among SUSC, INF and REC |
| SirAbm.Conservation | src/abm.py:86-93 | the S, I and R counts of valid agents add up to N |
| SirAbm.SusceptibleNeverGrows | src/abm.py:72-84 | the number of susceptible agents never rises over a day |
| SirAbm.RecoveredNeverShrinks | src/abm.py:79-84 | the number of recovered agents never falls over a day |
| SirAbm.LogKeepsRecorded | src/abm.py:86-93 | appending the day's counts keeps the three series equally long, each record summing to N, and daily_S non-increasing and ending at the current S count |
| SirAbm.DayKeepsRecorded | src/abm.py:47-95 | after a full day the series, extended by that day's counts, still meet the same conditions |
| SirAbm.SeededPopulation | src/abm.py:26-31 | with I0 distinct sampled indices, exactly I0 agents are INF and N − I0 are SUSC |
| SirAbm.Abm.constructor | src/abm.py:21-37 | exactly the sampled agents are (INF, 0) and the rest (SUSC, 0); I0 INF, N − I0 SUSC; empty series; day 0 |
| SirAbm.Abm.Seed | src/abm.py:26-31 | N fresh agents, the sampled indices set to INF |
| SirAbm.Abm.CollectCandidates | src/abm.py:56-70 | phase 1 reads only and returns the candidate list: susceptible targets, at most (#infectious) × contacts_per_day of them |
| SirAbm.Abm.AttemptContacts | src/abm.py:63-70 | one infectious agent's attempts, in attempt order |
| SirAbm.Abm.ApplyInfections | src/abm.py:72-77 | phase 2 leaves the agents equal to `Infect` of the previous agents |
| SirAbm.Abm.ProgressTimers | src/abm.py:79-84 | phase 3 leaves the agents equal to `Ticked` of the previous agents |
| SirAbm.Abm.LogCounts | src/abm.py:86-93 | phase 4 appends exactly one S, one I and one R count, each the count of its state; the day is unchanged |
| SirAbm.Abm.Advance | src/abm.py:56-84 | phases 1–3 turn the agents into `Day` of the previous agents |
| SirAbm.Abm.Step | src/abm.py:47-95 | one step keeps the engine valid (counts sum to N, S non-increasing), appends one entry to each series and adds 1 to day |
| SirAbm.Abm.Run | src/abm.py:98-103 | `run(days)`, 67 days unless told otherwise, performs exactly `days` steps: the agents follow `Days`, day and the series grow by `days`, the earlier entries of all three series are kept, and the t-th new entry holds the S, I and R counts of `Days` after t + 1 days |
| SeirdAgent.InfectiousStates | src/seird/agent_seird.py:58-60 | infectious exactly in I; E is not infectious |
| SeirdAgent.Infected | src/seird/agent_seird.py:26-30 | from S: E with days_remaining = max(1, draw), that is the draw when it is at least 1 and 1 otherwise; any other state is unchanged |
| SeirdAgent.BecameInfectious | src/seird/agent_seird.py:33-41 | I with days_remaining = max(1, draw): the draw when it is at least 1, else 1 |
| SeirdAgent.Progressed | src/seird/agent_seird.py:44-56 | S, R and D are unchanged; an E or I timer falls by 1, with the state kept while it stays positive; an expiring E becomes I with a fresh timer; an expiring I becomes D exactly when the draw is below mortality_rate, else R; afterwards every E or I agent has days_remaining ≥ 1, and S is neither entered nor left |
| SeirdAgent.TerminalStays | src/seird/agent_seird.py:44-56 | any number of progress calls leave R and D unchanged |
| SeirdAgent.InfectiousPeriodEnds | src/seird/agent_seird.py:46-56 | an I agent with d ≥ 1 days left stays I, with its timer counted down, for fewer than d calls, and is R or D after d calls |
| SeirdAgent.IncubationEnds | src/seird/agent_seird.py:46-50 | an E agent with d ≥ 1 days left becomes I exactly at the d-th call, with that call's period |
| SeirdAgent.AgentSeird.constructor | src/seird/agent_seird.py:20-23 | the given state (S by default) and days_remaining 0 |
| SeirdAgent.AgentSeird.Infect | src/seird/agent_seird.py:26-30 | the new status is `Infected` of the old one |
| SeirdAgent.AgentSeird.BecomeInfectious | src/seird/agent_seird.py:33-41 | the new status is `BecameInfectious` of the draw |
| SeirdAgent.AgentSeird.Progress | src/seird/agent_seird.py:44-56 | the new status is `Progressed` of the old one |
| SeiardAgent.InfectiousStates | src/seiard/agent_seiard.py:68-70 | infectious exactly in IA or IS; E is not infectious |
| SeiardAgent.Infected | src/seiard/agent_seiard.py:29-33 | from S: E with days_remaining = max(1, draw), that is the draw when it is at least 1 and 1 otherwise; from any other state nothing changes |
| SeiardAgent.BecameInfectious | src/seiard/agent_seiard.py:36-51 | IS exactly when the draw is below p_symptomatic, else IA; days_remaining = max(1, period), that is the period when it is at least 1 and 1 otherwise |
| SeiardAgent.Progressed | src/seiard/agent_seiard.py:54-66 | S, R and D are unchanged; the timer falls by 1 in E, IA and IS and transitions only at ≤ 0; an expiring E takes the IS/IA branch; an expiring IA or IS becomes D exactly when the draw is below its age group's mortality, else R; a missing age group is a KeyError after the decrement; afterwards every timed agent has days_remaining ≥ 1 |
| SeiardAgent.TerminalStays | src/seiard/agent_seiard.py:54-66 | any number of progress calls leave R and D unchanged |
| SeiardAgent.InfectiousPeriodEnds | src/seiard/agent_seiard.py:56-66 | an IA or IS agent with d ≥ 1 days left keeps its state for fewer than d calls and is R or D after d calls |
| SeiardAgent.AgentSeiard.constructor | src/seiard/agent_seiard.py:21-26 | state S (by default), days_remaining 0, mask_eff 0 and age group "adult" (by default) |
| SeiardAgent.AgentSeiard.Infect | src/seiard/agent_seiard.py:29-33 | the new status is `Infected` of the old one; mask, age group and vaccination flag are kept |
| SeiardAgent.AgentSeiard.BecomeInfectious | src/seiard/agent_seiard.py:36-51 | the new status is `BecameInfectious` of the draws; other fields are kept |
| SeiardAgent.AgentSeiard.Progress | src/seiard/agent_seiard.py:54-66 | the new status is `Progressed` of the old one; it reports the KeyError exactly when `Progressed` does |
| SeirdPerson.InfectiousStates | src/SEIR-D/person.py:44-45 | infectious exactly in IA or IS |
| SeirdPerson.Initial | src/SEIR-D/person.py:7-12 | R if vaccinated, else S; days_remaining 0; not symptomatic |
| SeirdPerson.Infected | src/SEIR-D/person.py:17-20 | from S: E with days_remaining = max(1, draw), that is the draw when it is at least 1 and 1 otherwise; otherwise nothing changes |
| SeirdPerson.BecameInfectious | src/SEIR-D/person.py:34-42 | IS exactly when the draw is below p_symptomatic, else IA; symptomatic exactly in IS; days_remaining = max(1, period), that is the period when it is at least 1 and 1 otherwise |
| SeirdPerson.Progressed | src/SEIR-D/person.py:22-32 | nothing changes outside E, IA and IS; inside them the timer falls by exactly 1; an expiring E becomes infectious; an expiring IA or IS becomes D exactly when the draw is below mortality_rate, else R; afterwards every timed person has days_remaining ≥ 1 |
| SeirdPerson.TerminalStays | src/SEIR-D/person.py:17-32 | no sequence of infect and progress calls changes an R or D person |
| SeirdPerson.VaccinatedNeverInfected | src/SEIR-D/person.py:9 | a vaccinated person stays R through any sequence of infect and progress calls |
| SeirdPerson.Person.constructor | src/SEIR-D/person.py:7-15 | the id and parameters given, and the status `Initial(vaccinated)` |
| SeirdPerson.Person.Infect | src/SEIR-D/person.py:17-20 | the new status is `Infected` of the old one |
| SeirdPerson.Person.Progress | src/SEIR-D/person.py:22-32 | the new status is `Progressed` of the old one |
| SeirdPerson.Person.BecomeInfectious | src/SEIR-D/person.py:34-42 | the new status is `BecameInfectious` of the draws |
| SeirdNetwork.RecordedSumsToN | src/seird/abm_network_seird.py:50-55 | each logged day's five counts sum to N |
| SeirdNetwork.AnyActive | src/seird/abm_network_seird.py:39-44 | true exactly when some agent is in E or I |
| SeirdNetwork.AnyActiveIffCounted | src/seird/abm_network_seird.py:39-44 | the termination test holds exactly when the E or I count is positive |
| SeirdNetwork.Population | src/seird/abm_network_seird.py:18-23 | N distinct fresh agents, each sampled index in E and every other agent in S, all with days_remaining 0 |
| SeirdNetwork.AbmNetworkSeird.constructor | src/seird/abm_network_seird.py:13-35 | exactly the I0 sampled agents in E and the other N − I0 in S; history keys S, E, I, R, D, all empty; day 0; not finished |
| SeirdNetwork.AbmNetworkSeird.ShouldContinue | src/seird/abm_network_seird.py:39-44 | `_should_continue`, read-only: true exactly when some agent is in E or I |
| SeirdNetwork.AbmNetworkSeird.LogStates | src/seird/abm_network_seird.py:48-56 | appends each label's count once and the full state list once; the history stays consistent and sums to N; nothing else changes |
| SeiardNetwork.RecordedSumsToN | src/seiard/abm_network_seiard.py:89-98 | each logged day's six counts sum to N |
| SeiardNetwork.AnyActive | src/seiard/abm_network_seiard.py:47-52 | true exactly when some agent is in E, IA or IS |
| SeiardNetwork.Attempts | src/seiard/abm_network_seiard.py:72-83 | at most one id per attempt; every id is a neighbour that was susceptible and not vaccinated at scan time |
| SeiardNetwork.AllHit | src/seiard/abm_network_seiard.py:72-83 | duplicates are kept: when every pick is susceptible and unvaccinated and every draw is below the masked probability, each pick is returned in order, repeats included |
| SeiardNetwork.AttemptsSound | src/seiard/abm_network_seiard.py:75-83 | every id one source adds is the neighbour of one of its hits (susceptible, unvaccinated, draw below the masked probability) |
| SeiardNetwork.AttemptsComplete | src/seiard/abm_network_seiard.py:75-83 | the neighbour of every hit is among the ids the source adds |
| SeiardNetwork.AttemptsExactly | src/seiard/abm_network_seiard.py:75-83 | an id is added by one source if and only if it is the neighbour of one of its hits |
| SeiardNetwork.CollectedSound | src/seiard/abm_network_seiard.py:56-85 | every id collected from agents 0 .. n-1 comes from an exposing attempt of an infectious agent with neighbours |
| SeiardNetwork.CollectedComplete | src/seiard/abm_network_seiard.py:56-85 | every exposing attempt of agents 0 .. n-1 puts its contact in the collected list |
| SeiardNetwork.CollectedExactly | src/seiard/abm_network_seiard.py:56-85 | an id is collected if and only if some attempt of agents 0 .. n-1 exposes it |
| SeiardNetwork.FullMaskAddsNothing | src/seiard/abm_network_seiard.py:79-83 | a source with mask_eff = 1 infects nobody |
| SeiardNetwork.Collected | src/seiard/abm_network_seiard.py:56-85 | every id is susceptible and unvaccinated and neighbours an infectious agent; there are at most (#infectious) × current_contacts_per_day ids |
| SeiardNetwork.Population | src/seiard/abm_network_seiard.py:20-25 | N distinct fresh agents, the sampled ones in E and the others in S, no mask, age group "adult" |
| SeiardNetwork.AbmNetworkSeiard.constructor | src/seiard/abm_network_seiard.py:15-43 | I0 in E and N − I0 in S; empty six-label history; the manager holds the given list, or an empty one for None; current_contacts_per_day = contacts_per_day |
| SeiardNetwork.AbmNetworkSeiard.ShouldContinue | src/seiard/abm_network_seiard.py:47-52 | `_should_continue`: true exactly when some agent is in E, IA or IS |
| SeiardNetwork.AbmNetworkSeiard.CollectInfections | src/seiard/abm_network_seiard.py:56-85 | reads only and returns `Collected` of the agents' snapshot, with current_contacts_per_day attempts per contributing agent |
| SeiardNetwork.AbmNetworkSeiard.ScanAgent | src/seiard/abm_network_seiard.py:62-68 | a non-infectious agent, or one without neighbours, contributes nothing; any other agent contributes its attempts |
| SeiardNetwork.AbmNetworkSeiard.AttemptContacts | src/seiard/abm_network_seiard.py:72-83 | one agent's attempts, in attempt order |
| SeiardNetwork.AbmNetworkSeiard.Attempt | src/seiard/abm_network_seiard.py:75-83 | a contact infects exactly when the target is susceptible and unvaccinated and the draw is below (p_infect_IS or p_infect_IA) × (1 − mask_eff) |
| SeiardNetwork.AbmNetworkSeiard.LogStates | src/seiard/abm_network_seiard.py:89-98 | appends six counts and the full state list; the history stays consistent and sums to N; nothing else changes |
| SeiarNetwork.Attempts | src/seird/abm_network_seiar.py:53-63 | at most one id per attempt; each id is a neighbour that was susceptible at scan time |
| SeiarNetwork.AllHit | src/seird/abm_network_seiar.py:53-63 | duplicates are allowed: when every pick is susceptible and every draw is below both probabilities, each pick is returned, repeats included |
| SeiarNetwork.Collected | src/seird/abm_network_seiar.py:37-65 | every id is susceptible and neighbours an infectious agent; at most (#infectious) × contacts_per_day ids |
| SeiarNetwork.AttemptsSound | src/seird/abm_network_seiar.py:56-63 | every id one source adds is the neighbour of one of its hits (susceptible, draw below the source's probability) |
| SeiarNetwork.AttemptsComplete | src/seird/abm_network_seiar.py:56-63 | the neighbour of every hit is among the ids the source adds |
| SeiarNetwork.AttemptsExactly | src/seird/abm_network_seiar.py:56-63 | an id is added by one source if and only if it is the neighbour of one of its hits |
| SeiarNetwork.CollectedSound | src/seird/abm_network_seiar.py:37-65 | every id collected from agents 0 .. n-1 comes from an exposing attempt of an infectious agent with neighbours |
| SeiarNetwork.CollectedComplete | src/seird/abm_network_seiar.py:37-65 | every exposing attempt of agents 0 .. n-1 puts its contact in the collected list |
| SeiarNetwork.CollectedExactly | src/seird/abm_network_seiar.py:37-65 | an id is collected if and only if some attempt of agents 0 .. n-1 exposes it |
| SeiarNetwork.NoSourceNoExposure | src/seird/abm_network_seiar.py:42-44 | without infectious agents nothing is collected |
| SeiarNetwork.RecordedSumsToN | src/seird/abm_network_seiar.py:69-78 | each logged day's six counts sum to N |
| SeiarNetwork.AbmNetworkSeiar.constructor | src/seird/abm_network_seiar.py:13-33 | exactly the I0 sampled agents in E and the rest in S; empty six-label history; day 0 |
| SeiarNetwork.AbmNetworkSeiar.CollectInfections | src/seird/abm_network_seiar.py:37-65 | reads only and returns `Collected` of the agents' states |
| SeiarNetwork.AbmNetworkSeiar.ScanAgent | src/seird/abm_network_seiar.py:42-63 | only an infectious agent with at least one neighbour contributes |
| SeiarNetwork.AbmNetworkSeiar.AttemptContacts | src/seird/abm_network_seiar.py:56-63 | one agent's attempts, with threshold p_infect_IS for an IS source and p_infect_IA otherwise |
| SeiarNetwork.AbmNetworkSeiar.LogStates | src/seird/abm_network_seiar.py:69-78 | appends six counts and the full state list; the history stays consistent and sums to N |
| Simulation.Hits | src/SEIR-D/simulation.py:52-59 | the ids one infectious person exposes are susceptible neighbours, and every neighbour that is S and whose draw is below the threshold is one of them |
| Simulation.HitsSound | src/SEIR-D/simulation.py:52-59 | every id one person's loop adds is a neighbour that was S and whose draw was below the person's threshold |
| Simulation.Exposed | src/SEIR-D/simulation.py:47-59 | new_exposed holds only people who were S at scan time |
| Simulation.ExposedSound | src/SEIR-D/simulation.py:50-59 | every exposed id comes from a contact of an infectious person among those scanned: the id is that contact, it was S, and the draw for it was below the person's threshold |
| Simulation.ExposedComplete | src/SEIR-D/simulation.py:50-59 | every S neighbour of an infectious person whose draw is below the threshold is exposed |
| Simulation.ExposedExactly | src/SEIR-D/simulation.py:47-59 | an id is in new_exposed if and only if some contact of a scanned infectious person exposes it (S neighbour, draw below the threshold) |
| Simulation.NoTransmissionNoExposure | src/SEIR-D/simulation.py:55-59 | with p_infect_IS and p_infect_IA both 0, no draw falls below the threshold and nobody is exposed |
| Simulation.NoSourceNoExposure | src/SEIR-D/simulation.py:50-59 | without infectious people nobody is exposed |
| Simulation.AfterDay | src/SEIR-D/simulation.py:61-65 | a person's day: R and D are unchanged; anyone not in S is only progressed; an unexposed S person is unchanged; an exposed one ends in E or an infectious state |
| Simulation.Day | src/SEIR-D/simulation.py:46-65 | a day keeps the population size and every code valid |
| Simulation.DayAt | src/SEIR-D/simulation.py:46-65 | each person is infected at most once (set membership) and progressed exactly once, after all infections |
| Simulation.TerminalCountsNeverFall | src/SEIR-D/simulation.py:61-74 | the R and D counts never fall over a day |
| Simulation.RecordedSumsToN | src/SEIR-D/simulation.py:68-74 | each recorded day's six counts sum to N |
| Simulation.Days | src/SEIR-D/simulation.py:46-74 | t days keep the population size and every code valid |
| Simulation.TraceIsDays | src/SEIR-D/simulation.py:46-74 | a trace of successive days equals the t-fold day function |
| Simulation.DayLogged | src/SEIR-D/simulation.py:68-74 | appending a day whose R and D counts did not fall keeps the history consistent |
| Simulation.Seeded | src/SEIR-D/simulation.py:33-40 | the sampled people are in E and everyone else in S |
| Simulation.SeededCounts | src/SEIR-D/simulation.py:33-40 | exactly 10 (the sample size) people in E and N − 10 in S |
| Simulation.Population | src/SEIR-D/simulation.py:33-36 | N distinct fresh people with ids 0..N−1, unvaccinated |
| Simulation.SeedInfections | src/SEIR-D/simulation.py:38-40 | exactly the sampled people are `infect`ed |
| Simulation.Scan | src/SEIR-D/simulation.py:47-59 | reads only and returns `Exposed` of the current states |
| Simulation.ScanPerson | src/SEIR-D/simulation.py:51-59 | a non-infectious person contributes nothing, an infectious one its `Hits` |
| Simulation.InfectExposed | src/SEIR-D/simulation.py:61-62 | exactly the people in new_exposed are `infect`ed, once each |
| Simulation.ProgressAll | src/SEIR-D/simulation.py:64-65 | every person is progressed exactly once |
| Simulation.OneDay | src/SEIR-D/simulation.py:47-65 | the people's statuses become `Day` of the previous ones |
| Simulation.Setup | src/SEIR-D/simulation.py:33-40 | N distinct fresh people whose statuses are `Seeded` |
| Simulation.RunDays | src/SEIR-D/simulation.py:46-74 | T_MAX days, each logged once, with the R and D counts never falling; entry t of the history holds the status codes after t + 1 days |
| Simulation.Advance | src/SEIR-D/simulation.py:47-74 | one day followed by one log entry, keeping the history consistent |
| Simulation.HistoryFacts | src/SEIR-D/simulation.py:68-74 | six labels of T_MAX entries each, every day summing to N, with R and D non-decreasing |
| Simulation.Simulate | src/SEIR-D/simulation.py:33-74 | six lists of T_MAX entries, each day summing to N, R and D non-decreasing, final statuses equal to T_MAX days from the seeded start, and entry t of each list is the count of its code after t + 1 days from the seeded start |
| InterventionExamples.LockdownContacts | src/intervention/interventions_examples.py:13-20 | the same keys as the base map; inside the inclusive window each count is int(base × factor); outside it the base map itself |
| InterventionExamples.LockdownBounds | src/intervention/interventions_examples.py:16 | with base ≥ 0 and 0 ≤ factor ≤ 1 each reduced count lies in [0, base] |
| InterventionExamples.Masked | src/intervention/interventions_examples.py:32-42 | outside the window every efficacy is 0; inside it, efficacy exactly when the agent's draw is below compliance, else 0 |
| InterventionExamples.MaskEffs | src/intervention/interventions_examples.py:32-42 | the agents' mask efficacies, in order |
| InterventionExamples.ApplyMasks | src/intervention/interventions_examples.py:32-42 | every agent's mask_eff becomes `Masked`, one draw per agent; states, age groups and vaccination flags are untouched |
| Interventions.Applied | src/intervention/interventions.py:4-6 | the base intervention fails and changes nothing; Lockdown changes only the contact map; Masks changes only the efficacies |
| Interventions.AppliedAll | src/intervention/interventions.py:20-24 | the list fails exactly when it contains a base intervention; an empty list changes nothing |
| Interventions.AppliedAllAppend | src/intervention/interventions.py:20-24 | applying xs + ys is applying xs, then ys to the result: each in list order |
| Interventions.FailureStops | src/intervention/interventions.py:23-24 | once an intervention fails, later ones have no effect |
| Interventions.LastLockdownWins | src/intervention/interventions.py:23-24 | the contact map left is the one the last Lockdown writes |
| Interventions.LastMasksWins | src/intervention/interventions.py:23-24 | the efficacies left are those the last Masks writes |
| Interventions.LockdownIdempotent | src/intervention/interventions_examples.py:13-20 | applying a Lockdown twice on the same day equals applying it once |
| Interventions.InterventionManager.constructor | src/intervention/interventions.py:12-13 | the given list, or an empty one for None |
| Interventions.InterventionManager.Add | src/intervention/interventions.py:16-17 | appends at the end, keeping the order |
| Interventions.InterventionManager.Apply | src/intervention/interventions.py:20-24 | the result is `AppliedAll` of the registered list in order; agents' states are untouched |
| LoadData.Active | src/data/load_data.py:28-39 | same length as the input; for t ≥ D the difference over the last D days; for t < D the value at D + 1; all zeros for D = 0 |
| LoadData.NondecreasingOrdered | src/data/load_data.py:33-34 | non-decreasing totals are ordered between any two days |
| LoadData.ActiveBounds | src/data/load_data.py:33-37 | from non-decreasing totals every estimate is ≥ 0; from non-negative totals, an estimate from day D on never exceeds the day's total |
| LoadData.EstimateActive | src/data/load_data.py:28-39 | returns `Active` exactly when the list is long enough for the window, and an IndexError otherwise |
| LoadData.WindowDifferences | src/data/load_data.py:30-34 | the first loop: 0 for the first D days, then the difference over the last D days; a negative window raises IndexError unless the list is empty |
| LoadData.CopyPrefix | src/data/load_data.py:36-37 | the second loop: copies entry D + 1 into the first D entries, and raises IndexError exactly when entry D + 1 is missing |
| LoadData.Susceptible | src/data/load_data.py:18 | S[k] + I[k] equals the population, with equal lengths |
| LoadData.LoadSeries | src/data/load_data.py:16-25 | I_cum is the parsed list unchanged, I its estimate with D = inf_period_mean, S the population minus I; the IndexError propagates |
| LoadData.SeriesBounds | src/data/load_data.py:16-25 | the three series are equally long, S + I is the population, and S never exceeds it for non-decreasing totals |

## Left out

- Reading the CSV file and parsing its dates and numbers (`src/data/load_data.py:8-14`) are not modelled: the parsed cumulative list is the input, and the dates are not returned.
- Plotting, file output, the web interface and the model-evaluation metrics are not modelled.
- RNG seeding and the distributions behind the draws are not modelled: every draw is an input, and nothing is said about its distribution or rounding.
- Floating-point numbers are modelled as exact reals.
- Graph construction (networkx and `_create_network`) is not modelled: the contact graph is an adjacency list over 0..N−1, supplied as an input.
- The `ABMNetwork` base class, with the network engines' `step`/`run` ordering, is not part of this model. So are `seird/agent_seiar.py` and the `Vaccines` class.
- `SeiarNetwork.AbmNetworkSeiar.constructor`: the agents of the SEIAR engine are state codes only, numbered as in AgentSEIARD (S0 E1 IS2 IA3 R4 D5), because AgentSEIAR is not part of this model.
- `SeiardAgent.AgentSeiard.constructor`: the `vaccinated` flag read by the SEIAR-D scan is never given a value in the agent's constructor. The model keeps it as an uninitialised boolean field, which no contract constrains at creation.
- mortality_by_group and contacts_by_group are absent from the SEIAR-D configuration. The model makes them configuration maps, and a missing age group is the KeyError result.
- `InterventionExamples.LockdownContacts`: Lockdown writes current_contacts_by_group, which no engine reads; the engine reads current_contacts_per_day. This is modelled as written.
- `SeirdPerson.Person.constructor`: the two timer draws the constructor makes are discarded, and are not modelled. One of them uses inc_period_std as the mean.
- `SeirdPerson.Person.constructor`: a Person built without parameters (None) is not modelled; every Person carries its parameter record.
- `InterventionExamples.ApplyMasks` and `Interventions.InterventionManager.Apply` require the agent list to hold distinct objects, which the engine's construction guarantees.
- `Interventions.InterventionManager.constructor`: the manager keeps the caller's list by reference; the model copies its value, so aliasing of that list is not captured.
- `SeiardNetwork.AbmNetworkSeiard.Attempt`, `SeiarNetwork.AbmNetworkSeiar.AttemptContacts`, `Simulation.ScanPerson` and `SirAbm.Abm.AttemptContacts` take one uniform draw per attempt or neighbour. The source draws only for susceptible targets, so the draws supplied for other targets are ignored.
- `Simulation.InfectExposed`: Python iterates new_exposed in an unspecified set order. The people are distinct objects, so the order cannot change the result, and the model infects them in index order.
- `Simulation.Day` and `Simulation.Days` are the day as a function of the statuses. Which person objects are updated is stated by `Simulation.OneDay` and `Simulation.RunDays`.
- `SirAbm.Abm.Run`: a negative `days` (an empty Python range) is not modelled; the count of days is a natural number.
- The SIR contacts_per_day and the network engines' contacts_per_day are modelled as natural numbers; a negative value (an empty range in Python) is not modelled.
