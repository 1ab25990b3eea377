# Covid SIR model in Dafny

This project models the core of a Mesa agent-based SIR epidemic simulation
(`covid/model.py`, `covid/agents.py`). People move on a continuous plane and
are Susceptible, Infected or Recovered. Each tick of the model has three parts:

- an infection pass turns every Susceptible person with an Infected neighbour
  into a new Infected person;
- the commuting phase advances home → work → community → home (or stays
  "diffusion" when the imperial mode is off);
- the scheduler activates every person once in shuffled order. An activated
  person moves and, if Infected, counts its remaining infectious time down;
  at zero it is replaced by a Recovered person.

The model stops running once nobody is Infected.

The project has three modules:

- `Agents` (`agents.dfy`) holds a person as a value. It models construction
  (`People.__init__`), `set_imperial`, the choice of a movement target, and the
  infection countdown.
- `Schedule` (`schedule.dfy`) models the scheduler's insertion-ordered
  dictionary as a sequence of agents with distinct ids. Lookup finds the agent
  with a key; replacement removes an entry and appends a new one.
- `Model` (`model.dfy`) defines the counters as functions over the agents. Its
  class `Covid` holds the model state: the agents, the phase, `running`, the
  last id handed out, the random-draw cursor and the step counter. Its methods
  model construction, `infect`, the agents' own steps, the scheduler's step,
  `step`, `count` and `active`.

External behaviour becomes constants of the class:

- `draws` is the random stream: the n-th draw taken by the model and its agents is `draws(n)`.
- `heading` is the direction `(sin a, cos a)` of an angle.
- `near` is the neighbour query of the space.
- `shuffle` gives the scheduler's activation order at a given step.

Infection and recovery replace an agent by a new one with a fresh id. So the
steps are described by ghost maps from each agent before the step to the agent
that continues it (`succ`, `next`, `heir`). Each pass is also recorded stage by
stage: a `Stage` is the list of agents, the last id handed out and the draws
consumed at one moment. The infection pass is a chain of visits (`VisitStep`),
and the scheduler's pass a chain of own steps (`AgentStep`) in the order
`shuffle` gives.

## Model

| member | source | states |
|---|---|---|
| Agents.Travels | covid/agents.py:15-20 | A new agent travels for work exactly when its draw is below 0.1. |
| Agents.Settle | covid/agents.py:7-20 | A new agent keeps the given id, position and health. It has home/work/travel exactly in imperial mode. Its home is its creation position, and it travels iff the third draw is below 0.1. |
| Agents.SettleWorkInPlane | covid/agents.py:12-14 | The work place of a new agent lies inside the plane when the draws are in [0,1). |
| Agents.RandomPointInPlane | covid/agents.py:25-27 | A point drawn from two draws in [0,1) lies inside the plane. |
| Agents.SetImperial | covid/agents.py:82-85 | `set_imperial` installs exactly the given home, work and travel, and changes neither id, position nor health. |
| Agents.InitialEnergy | covid/agents.py:65-68 | The full energy of a new Infected agent: 42 when asymptomatic, 15 otherwise. It is a plain function; its durations are stated by Agents.InfectionLasts. |
| Agents.Tick | covid/agents.py:70-73 | An own step never moves health backwards along S→I→R, and Susceptible and Recovered never change. An Infected agent becomes Recovered exactly when its energy reaches 0; otherwise its energy drops by exactly one and its asymptomatic flag is kept. |
| Agents.CountdownExact | covid/agents.py:70-73 | An agent infected with energy E is still Infected with E−k left after k < E own steps, and is Recovered from its E-th own step on. |
| Agents.InfectionLasts | covid/agents.py:65-73 | A fresh infection lasts exactly 42 own steps when asymptomatic and 15 otherwise: Recovered iff k ≥ that bound, Infected iff k is below it. |
| Agents.Asymptomatic | covid/model.py:113-115 | A new infection is asymptomatic iff draw < percentage/100. A percentage of 0 never gives asymptomatic, and 100 always does, for draws in [0,1). |
| Agents.OffsetWithin | covid/agents.py:29-32 | A move along a unit direction scaled by draw × mobility ends within distance `mobility` of its anchor for any mobility ≥ 0: strictly within when mobility is positive, and at the anchor itself when it is 0. |
| Agents.Target | covid/agents.py:22-43 | The movement rule of People.step as a function of the phase, the mode, the agent and its two draws. It is a plain function; its bounds are stated by Agents.TargetBounds and Agents.DiffusionIgnoresPhase. |
| Agents.TargetBounds | covid/agents.py:23-43 | The movement rule in each case, for any mobility ≥ 0. Imperial mode in the community phase, or in the work phase for a traveller: a point in the plane. Work phase for a non-traveller: within `mobility` of work. Other phases: within `mobility` of home. Without imperial mode: within `mobility` of the current position. "Within" is strict when mobility is positive and means staying on the anchor when it is 0. |
| Agents.DiffusionIgnoresPhase | covid/agents.py:39-43 | Without imperial mode the target depends only on the position and the draws, not on the phase. |
| Schedule.Ids | covid/model.py:103 | The key list has one key per agent, each agent's id at its position. |
| Schedule.IdsMembers | covid/model.py:103 | A key is listed exactly when some agent carries it. |
| Schedule.IndexOf | covid/model.py:109 | Dictionary lookup: an index whose agent has the key, or −1 exactly when no agent has it. |
| Schedule.LookupFinds | covid/model.py:109 | With distinct keys, looking up a member's key finds that member. |
| Schedule.SameId | covid/model.py:109 | With distinct keys, two members with the same key are the same agent. |
| Schedule.Replace | covid/model.py:119-122 | Remove-then-add keeps the number of agents, puts the new agent last, keeps every other agent, and adds nothing else. |
| Schedule.ReplaceFresh | covid/model.py:116-122 | Replacing an agent by one with a fresh id keeps the keys distinct and removes the old agent. |
| Schedule.Susceptibles | covid/model.py:104-107 | The candidate snapshot holds exactly the agents that are Susceptible. |
| Model.Tally | covid/model.py:125-131 | A count never exceeds the number of agents. |
| Model.ActiveTally | covid/model.py:133-144 | An active count never exceeds the Infected count. |
| Model.TallyPartition | covid/model.py:125-131 | count("Susceptible") + count("Infected") + count("Recovered") equals the number of agents, and any other name counts 0. |
| Model.ActiveSplit | covid/model.py:133-144 | active("asymptomatic") + active(k) = count("Infected") for every other kind k. |
| Model.InitialTally | covid/model.py:68-83 | The initial population has exactly one Infected agent, which is asymptomatic. All others are Susceptible, and none is Recovered. |
| Model.InitialSize | covid/model.py:68-83 | The initial number of agents is `population` when it is at least 1, and 1 otherwise, because the first loop always runs once. |
| Model.NextPhase | covid/model.py:88-93 | The phase is "diffusion" after the step iff it was before, and every other phase changes. |
| Model.PhaseCycle | covid/model.py:88-93 | Three steps return to the same phase, and two steps never do for home/work/community. |
| Model.TickedForward | covid/agents.py:70-73 | The health of an heir is never earlier along S→I→R than the agent's, and an agent already Infected has exactly one Tick applied. |
| Model.PopulationReplace | covid/model.py:116-122 | Replacing an agent by a well-formed agent with the next id keeps ids distinct and bounded by the last id handed out. |
| Model.PopulationUpdate | covid/agents.py:70-72 | Updating an agent in place under the same id keeps the population invariant. |
| Model.Covid.constructor | covid/model.py:22-54 | The model starts valid, with every parameter and every external function equal to the argument given. `running` is set. The phase is "home" in imperial mode and "diffusion" otherwise. The population has the initial shape and size, and agent i is built from the draws make_agents consumes for it. Afterwards the last id handed out is the number of agents, so the next id is n + 1, and the stream stands just past make_agents' draws: 5n in imperial mode and 2n otherwise. |
| Model.Covid.NextDraw | covid/model.py:114 | Each draw the model or an agent takes returns the next value of the stream and advances the cursor by exactly one. |
| Model.Covid.NextId | covid/model.py:41 | Ids are handed out as 1, 2, 3, …: each call returns the previous last id plus one. |
| Model.Covid.NewPeople | covid/agents.py:7-20 | Creating an agent consumes three draws in imperial mode and none otherwise, and builds the agent from those draws. |
| Model.Covid.AddPerson | covid/model.py:69-75 | One iteration of make_agents appends the agent built from the next draws, with the next id. |
| Model.Covid.MakeAgents | covid/model.py:63-83 | make_agents builds the initial number of agents, each from its own draws, with ids 1..n. |
| Model.Covid.Count | covid/model.py:125-131 | `count(name)` returns the number of agents whose name is `name`. |
| Model.Covid.Active | covid/model.py:133-144 | `active(kind)` returns the number of asymptomatic (for "asymptomatic") or symptomatic (otherwise) Infected agents. |
| Model.Covid.SusceptibleKeys | covid/model.py:103-107 | The candidate list is the keys of the Susceptible agents, in schedule order. |
| Model.Covid.InfectedNeighbour | covid/model.py:110-112 | The index of an Infected agent within the social distance, or −1 when there is none. |
| Model.Covid.ExposedBy | covid/model.py:110-112 | Any Infected agent within the social distance makes the position exposed. |
| Model.Covid.HasInfectedNeighbour | covid/model.py:110-112 | The neighbour scan answers true exactly when some agent within the social distance is Infected. |
| Model.Covid.NewInfected | covid/model.py:113-118 | The replacement is exactly `InfectedFrom` the candidate. It takes the next id, the candidate's position and anchors, full energy, and the asymptomatic flag of the next draw. It consumes one draw, plus three for its construction in imperial mode. |
| Model.Covid.InfectSkip | covid/model.py:108-112 | A candidate with no Infected neighbour is left alone, and the pass invariant still holds. |
| Model.Covid.InfectConvert | covid/model.py:116-123 | Replacing an exposed candidate by its new Infected agent keeps the pass invariant and the population invariant. |
| Model.Covid.Visit | covid/model.py:108-123 | One visit is exactly a VisitStep. The candidate is looked up by its key. If an agent within the social distance is Infected at that moment, including one infected earlier in the pass, the candidate is replaced by the agent `InfectedFrom` makes of it, with the next id and the draws counted. Otherwise nothing changes. The visit keeps the class invariant and the pass invariant. |
| Model.Covid.VisitTraced | covid/model.py:108-123 | A visit that also records the stage it reaches, extending the chain of VisitSteps by one candidate. |
| Model.Covid.Convert | covid/model.py:113-122 | The visit of an exposed candidate is exactly a VisitStep that replaces it by the agent `InfectedFrom` makes of it, and keeps the class invariant and the pass invariant. |
| Model.Covid.Cascade | covid/model.py:116-122 | An agent infected during the pass is placed in the space at once. So every position within the social distance of the converted candidate is exposed for the candidates visited after it. |
| Model.Covid.Infect | covid/model.py:102-123 | The pass is the chain of VisitSteps over the agents that were Susceptible at the start, in schedule order, each on the population the previous visits left. This decides the cascade case. The pass also keeps the number of agents and every agent that was not Susceptible. It removes every Susceptible agent that had an Infected neighbour at the start. Each agent removed is replaced by a new Infected agent with a fresh id, full energy, and the same position and anchors. Nothing else is added. |
| Model.Covid.StepAgent | covid/agents.py:22-80 | An agent's own step is exactly an AgentStepAt from the stage before to the stage after. It moves the agent to the target of the movement rule for the next two draws and applies one Tick to its health, keeping the anchors. On recovery the agent is removed and a Recovered agent with the next id is appended (three more draws in imperial mode). Otherwise it is updated in place, at the same position of the list and under the same id. The class invariant is kept. |
| Model.Covid.Recover | covid/agents.py:73-80 | The end of an infection removes the agent and appends a Recovered agent with the next id, at the given position, with the same anchors; three draws are consumed in imperial mode and none otherwise. The class invariant is kept. |
| Model.Covid.ActivateKey | covid/model.py:95 | Activating one not yet activated key is exactly an AgentStep of the agent with that key. It keeps the class invariant and extends the pass invariant. |
| Model.Covid.ActivateKeyTraced | covid/model.py:95 | An activation that also records the stage it reaches, extending the chain of AgentSteps by the next key of the activation order. |
| Model.Covid.ChainCounts | covid/model.py:95 | After n activations the scheduler has handed out exactly one new id per ended infection, taken two draws per activation plus three per ended infection in imperial mode, and kept the number of agents. |
| Model.Covid.ScheduleStep | covid/model.py:95 | The pass is the chain of AgentSteps over the keys in the order `shuffle` gives for the current step counter and the keys at the start, each on the population the previous activations left; agents added during the pass are not activated. Each agent present at the start is paired with the agent its own step made of it. That agent has one Tick applied to its health and the same anchors, and stands at the movement-rule target of two consecutive draws of the pass. It keeps its id unless it recovered, in which case its id is fresh. Every agent after the pass is such an image. The number of agents is kept, and the step counter advances by one. |
| Model.Covid.Heirs | covid/model.py:85-95 | Composing the infection pass with the scheduler's pass gives every agent an heir. The heir's health is one Tick of the agent's, or, for an agent infected in the tick, one Tick of a full-energy Infected agent. The heir keeps the anchors and moved as the agent would have by two draws of the tick. The heir of an agent replaced by the infection pass is not Susceptible. Given the infection pass's guarantee that every Susceptible agent with an Infected neighbour at the start is replaced, no such agent has a Susceptible heir. Every agent after the step is some agent's heir. |
| Model.Covid.Advance | covid/model.py:85-95 | The infection pass, the phase change and the scheduler's pass together advance the phase once and keep the number of agents. Every agent has an heir whose health is exactly one tick further on, with the countdown advanced by one. The heir has the same anchors and sits at the target of the movement rule in the new phase. A Susceptible agent with an Infected neighbour does not stay Susceptible, and every agent after the tick is an heir. The tick is recorded stage by stage: the chain of VisitSteps of the infection pass, then the chain of AgentSteps of the scheduler's pass in the new phase and in the shuffled order. |
| Model.Covid.Step | covid/model.py:85-100 | As Advance: the same heirs, one tick further on, with the same anchors and movement, and the same record of both passes. In addition, `running` stays true only while some agent is Infected after the step, and is never set back to true. |

## Left out

- Toroidal wrap-around of `move_agent` is not modelled. A position is the target as computed.
- `get_neighbors` is the predicate `near`: the neighbour geometry and the radius test of the space are not modelled.
- `math.sin` and `math.cos` are the function `heading`. `Agents.TargetBounds` assumes it returns unit vectors. The angle in degrees passed as radians is therefore not reproduced.
- Floating-point arithmetic is modelled as exact real arithmetic.
- The scheduler's shuffle is the function `shuffle` of the step counter and the keys. The random numbers the shuffle takes from the model's stream are not modelled: `draws` counts only the draws of the model and its agents.
- The scheduler's step counter advances before the activations rather than after them; nothing reads it in between.
- `DataCollector`, the visualisation server (`covid/server.py`), `__str__` and the colour strings are not modelled.
- The defaults of the model's constructor (100 people on a 100 × 100 plane, mobility 6, social distance 2, 50 % asymptomatic, imperial mode on) are not modelled: `Model.Covid.constructor` takes every value as an argument. The visualisation server never passes the width and height, so the program as served always runs on the 100 × 100 plane.
- Model.Tally: its own contract bounds the count by the number of agents; the partition property is stated by Model.TallyPartition.
- A new agent created on infection or recovery in imperial mode consumes the three draws of its constructor, whose results `set_imperial` then overwrites. This follows the code.
