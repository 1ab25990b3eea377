/**
 * The Covid model (covid/model.py): construction of the population, the
 * infection pass, the phase cycle, the scheduler's step over every agent and
 * the counters read by the charts.
 */
module Model {
  import opened Agents
  import opened Schedule

  /** count(name): the number of agents whose `name` is `name`. */
  function Tally(s: seq<Agent>, name: string): (n: nat)
    ensures n <= |s|
  {
    if s == [] then 0
    else Tally(s[..|s| - 1], name) + (if Name(s[|s| - 1].health) == name then 1 else 0)
  }

  /**
   * active(kind): the number of Infected agents that are asymptomatic when
   * `kind` is "asymptomatic", and that are symptomatic for any other `kind`.
   */
  function ActiveTally(s: seq<Agent>, kind: string): (n: nat)
    ensures n <= Tally(s, "Infected")
  {
    if s == [] then 0
    else
      var last := s[|s| - 1];
      ActiveTally(s[..|s| - 1], kind)
      + (if last.health.Infected? && last.health.asymptomatic == (kind == "asymptomatic") then 1 else 0)
  }

  /** The three counters partition the population; any other name counts nothing. */
  lemma {:induction false} TallyPartition(s: seq<Agent>, other: string)
    requires other != "Susceptible" && other != "Infected" && other != "Recovered"
    ensures Tally(s, "Susceptible") + Tally(s, "Infected") + Tally(s, "Recovered") == |s|
    ensures Tally(s, other) == 0
  {
    if s != [] {
      TallyPartition(s[..|s| - 1], other);
    }
  }

  /** The asymptomatic and the symptomatic counters split the Infected counter. */
  lemma {:induction false} ActiveSplit(s: seq<Agent>, kind: string)
    requires kind != "asymptomatic"
    ensures ActiveTally(s, "asymptomatic") + ActiveTally(s, kind) == Tally(s, "Infected")
  {
    if s != [] {
      ActiveSplit(s[..|s| - 1], kind);
    }
  }

  /** The population make_agents builds: one asymptomatic Infected agent first, then Susceptible ones. */
  ghost predicate InitialShape(s: seq<Agent>) {
    && |s| >= 1
    && s[0].health == Infected(true, InitialEnergy(true))
    && forall i :: 1 <= i < |s| ==> s[i].health == Susceptible
  }

  lemma {:induction false} InitialTally(s: seq<Agent>)
    requires InitialShape(s)
    ensures Tally(s, "Infected") == 1 && ActiveTally(s, "asymptomatic") == 1
    ensures Tally(s, "Susceptible") == |s| - 1 && Tally(s, "Recovered") == 0
  {
    if |s| > 1 {
      InitialTally(s[..|s| - 1]);
    }
  }

  /** The number of agents make_agents creates: the first loop always runs once. */
  function InitialSize(population: int): (n: nat)
    ensures n >= 1
    ensures population >= 1 ==> n == population
    ensures population < 1 ==> n == 1
  {
    1 + (if population - 1 > 0 then population - 1 else 0)
  }

  /** The phase after one model step: home -> work -> community -> home; diffusion stays. */
  function NextPhase(p: Phase): (r: Phase)
    ensures r == Diffusion <==> p == Diffusion
    ensures p != Diffusion ==> r != p
  {
    match p
    case Home => Work
    case Work => Community
    case Community => Home
    case Diffusion => Diffusion
  }

  /** The commuting phases form a cycle of length exactly three. */
  lemma PhaseCycle(p: Phase)
    ensures NextPhase(NextPhase(NextPhase(p))) == p
    ensures p != Diffusion ==> NextPhase(NextPhase(p)) != p
  {
  }

  /** What the class invariant requires of every agent. */
  ghost predicate WellFormed(a: Agent, imperial: bool) {
    && (a.commute.Some? <==> imperial)
    && (a.health.Infected? ==> 1 <= a.health.energy <= InitialEnergy(a.health.asymptomatic))
  }

  /** The agents have distinct ids, none above the last id handed out, and are well formed. */
  ghost predicate Population(s: seq<Agent>, last: nat, imperial: bool) {
    DistinctIds(s) && forall a :: a in s ==> a.id <= last && WellFormed(a, imperial)
  }

  /** Replacing an agent by a well-formed one with the next id keeps the population invariant. */
  lemma PopulationReplace(s: seq<Agent>, last: nat, imperial: bool, k: nat, p: Agent)
    requires Population(s, last, imperial) && k < |s|
    requires p.id == last + 1 && WellFormed(p, imperial)
    ensures Population(Replace(s, k, p), p.id, imperial)
  {
    ReplaceFresh(s, k, p);
  }

  /** Updating an agent in place, keeping its id, keeps the population invariant. */
  lemma PopulationUpdate(s: seq<Agent>, last: nat, imperial: bool, k: nat, v: Agent)
    requires Population(s, last, imperial) && k < |s|
    requires v.id == s[k].id && WellFormed(v, imperial)
    ensures Population(s[k := v], last, imperial)
  {
    UpdateSameKey(s, k, v);
  }

  /** Exactly the first i keys have been activated. */
  ghost predicate SeenPrefix(keys: seq<nat>, i: nat, seen: set<nat>) {
    && i <= |keys|
    && (forall j :: 0 <= j < i ==> keys[j] in seen)
    && (forall j :: i <= j < |keys| ==> keys[j] !in seen)
  }

  lemma SeenNext(keys: seq<nat>, i: nat, seen: set<nat>)
    requires SeenPrefix(keys, i, seen) && i < |keys| && DistinctKeys(keys)
    ensures SeenPrefix(keys, i + 1, seen + {keys[i]})
  {
    forall j | i + 1 <= j < |keys| ensures keys[j] != keys[i] {
      assert keys[i] != keys[j];
    }
  }

  /** A permutation of a list of distinct keys. */
  ghost predicate IsShuffle(p: seq<nat>, s: seq<nat>) {
    |p| == |s| && DistinctKeys(p) && forall x :: x in p <==> x in s
  }

  /** How agent `a` of the new population continues agent `o` after one own step. */
  ghost predicate Follows(o: Agent, a: Agent, c0: nat) {
    && a.commute == o.commute
    && a.health == Tick(o.health)
    && (if Recovering(o.health) then a.id > c0 else a.id == o.id)
  }

  /** How a Susceptible agent `o` is replaced by the new Infected agent `a`. */
  ghost predicate InfectedAs(o: Agent, a: Agent, c0: nat) {
    && o.health.Susceptible?
    && a.health.Infected?
    && a.health.energy == InitialEnergy(a.health.asymptomatic)
    && a.id > c0
    && a.pos == o.pos
    && a.commute == o.commute
  }

  /**
   * The health an agent's heir has after one model tick: one own step of the
   * agent itself, or, for a Susceptible agent infected in the tick, one own
   * step of the Infected agent that replaced it at full energy.
   */
  ghost predicate TickedHealth(h: Health, r: Health) {
    || r == Tick(h)
    || (h.Susceptible? && r.Infected? && r == Tick(Infected(r.asymptomatic, InitialEnergy(r.asymptomatic))))
  }

  /** A model tick moves each agent forward along S -> I -> R, never back. */
  lemma TickedForward(h: Health, r: Health)
    requires TickedHealth(h, r)
    ensures Rank(h) <= Rank(r)
    ensures h.Infected? ==> r == Tick(h)
  {
  }

  /** A moment of a pass over the agents: the agents, the last id handed out and the draws consumed. */
  datatype Stage = Stage(agents: seq<Agent>, lastId: nat, drawn: nat)

  /**
   * The record of one model tick: the stage between the infection pass and
   * the scheduler's pass, and each pass's stages and the agents it made.
   */
  datatype Passes = Passes(mid: Stage, infect: seq<Stage>, infected: seq<Agent>, schedule: seq<Stage>, stepped: seq<Agent>)

  class Covid {
    const population: int
    const width: real
    const height: real
    const mobility: real
    const socialDistance: real
    const asymptomaticPercentage: real
    const imperial: bool

    /** The model's random stream: the n-th draw taken by the model and its agents is draws(n). */
    const draws: nat -> real
    /** The direction (sin a, cos a) of an angle a. */
    const heading: real -> Point
    /** near(p, q, r): the space reports an agent at q among the neighbours of p within radius r. */
    const near: (Point, Point, real) -> bool
    /** The scheduler's activation order of the given keys at the given step. */
    const shuffle: (nat, seq<nat>) -> seq<nat>

    /** Number of random draws consumed so far. */
    var drawn: nat
    /** The last id handed out by next_id. */
    var currentId: nat
    var phase: Phase
    var running: bool
    /** The scheduler's agents, in insertion order; the space holds the same agents. */
    var agents: seq<Agent>
    /** The scheduler's step counter. */
    var steps: nat

    ghost predicate OraclesSound() {
      && (forall n :: 0.0 <= draws(n) < 1.0)
      && (forall t :: Unit(heading(t)))
      && (forall n, s :: DistinctKeys(s) ==> IsShuffle(shuffle(n, s), s))
    }

    ghost predicate Valid()
      reads this`phase, this`agents, this`currentId
    {
      && (phase == Diffusion <==> !imperial)
      && |agents| == InitialSize(population)
      && Population(agents, currentId, imperial)
    }

    /** Draws make_agents consumes before creating its i-th agent: 2 per position, 3 more in imperial mode. */
    function DrawsBefore(i: nat): nat {
      if imperial then 5 * i else 2 * i
    }

    /** The i-th agent make_agents creates, from the draws it consumes. */
    ghost function Born(i: nat): Agent {
      var b := DrawsBefore(i);
      Settle(i + 1, RandomPoint(draws(b), draws(b + 1), width, height),
             if i == 0 then Infected(true, InitialEnergy(true)) else Susceptible,
             imperial, width, height, draws(b + 2), draws(b + 3), draws(b + 4))
    }

    /** The position of an Infected agent of `s` within the social distance of `p`, or -1. */
    function InfectedNeighbour(s: seq<Agent>, p: Point): (k: int)
      ensures -1 <= k < |s|
      ensures k >= 0 ==> s[k].health.Infected? && near(p, s[k].pos, socialDistance)
      ensures k < 0 ==> forall j :: 0 <= j < |s| ==> !(s[j].health.Infected? && near(p, s[j].pos, socialDistance))
    {
      if s == [] then -1
      else if s[0].health.Infected? && near(p, s[0].pos, socialDistance) then 0
      else
        var r := InfectedNeighbour(s[1..], p);
        if r < 0 then -1 else r + 1
    }

    /** Some agent of `s` within the social distance of `p` is Infected. */
    ghost predicate Exposed(s: seq<Agent>, p: Point) {
      InfectedNeighbour(s, p) >= 0
    }

    lemma ExposedBy(s: seq<Agent>, p: Point, x: Agent)
      requires x in s && x.health.Infected? && near(p, x.pos, socialDistance)
      ensures Exposed(s, p)
    {
      var j :| 0 <= j < |s| && s[j] == x;
    }

    /** The asymptomatic flag of `a` comes from a draw taken between d0 and d1. */
    ghost predicate FromDraw(a: Agent, d0: nat, d1: nat) {
      a.health.Infected? &&
      exists k :: d0 <= k < d1 && a.health.asymptomatic == Asymptomatic(draws(k), asymptomaticPercentage)
    }

    constructor (population: int, width: real, height: real, mobility: real, socialDistance: real,
                 asymptomaticPercentage: real, imperial: bool,
                 draws: nat -> real, heading: real -> Point, near: (Point, Point, real) -> bool,
                 shuffle: (nat, seq<nat>) -> seq<nat>)
      requires forall n :: 0.0 <= draws(n) < 1.0
      requires forall t :: Unit(heading(t))
      requires forall n, s :: DistinctKeys(s) ==> IsShuffle(shuffle(n, s), s)
      ensures Valid() && OraclesSound()
      ensures this.population == population && this.imperial == imperial
      ensures this.asymptomaticPercentage == asymptomaticPercentage && this.draws == draws
      ensures this.width == width && this.height == height && this.mobility == mobility
      ensures this.socialDistance == socialDistance
      ensures this.heading == heading && this.near == near && this.shuffle == shuffle
      ensures phase == (if imperial then Home else Diffusion) && running && steps == 0
      ensures InitialShape(agents) && |agents| == InitialSize(population)
      ensures forall i :: 0 <= i < |agents| ==> agents[i] == Born(i)
      ensures currentId == |agents| && drawn == DrawsBefore(|agents|)
    {
      this.population := population;
      this.width := width;
      this.height := height;
      this.mobility := mobility;
      this.socialDistance := socialDistance;
      this.asymptomaticPercentage := asymptomaticPercentage;
      this.imperial := imperial;
      this.draws := draws;
      this.heading := heading;
      this.near := near;
      this.shuffle := shuffle;
      currentId := 0;
      drawn := 0;
      phase := if imperial then Home else Diffusion;
      agents := [];
      steps := 0;
      new;
      MakeAgents();
      running := true;
    }

    method NextDraw() returns (u: real)
      modifies this`drawn
      ensures u == draws(old(drawn)) && drawn == old(drawn) + 1
    {
      u := draws(drawn);
      drawn := drawn + 1;
    }

    /** next_id: ids are handed out as 1, 2, 3, ... */
    method NextId() returns (id: nat)
      modifies this`currentId
      ensures id == old(currentId) + 1 && currentId == id
    {
      currentId := currentId + 1;
      id := currentId;
    }

    /** People.__init__: in imperial mode creating an agent consumes three draws. */
    method NewPeople(id: nat, pos: Point, health: Health) returns (a: Agent)
      modifies this`drawn
      ensures drawn == old(drawn) + (if imperial then 3 else 0)
      ensures a == Settle(id, pos, health, imperial, width, height,
                          draws(old(drawn)), draws(old(drawn) + 1), draws(old(drawn) + 2))
    {
      if imperial {
        var x := NextDraw();
        var y := NextDraw();
        var t := NextDraw();
        a := Settle(id, pos, health, imperial, width, height, x, y, t);
      } else {
        a := Settle(id, pos, health, imperial, width, height, 0.0, 0.0, 0.0);
      }
    }

    /**
     * One iteration of either loop of make_agents: a random position, the
     * next id, the new agent placed in the space and added to the schedule.
     */
    method AddPerson(health: Health)
      requires currentId == |agents| && drawn == DrawsBefore(|agents|)
      requires health == if agents == [] then Infected(true, InitialEnergy(true)) else Susceptible
      modifies this`agents, this`currentId, this`drawn
      ensures agents == old(agents) + [Born(|old(agents)|)]
      ensures currentId == |agents| && drawn == DrawsBefore(|agents|)
    {
      var x := NextDraw();
      var y := NextDraw();
      var id := NextId();
      var person := NewPeople(id, RandomPoint(x, y, width, height), health);
      agents := agents + [person];
    }

    /** make_agents: one asymptomatic Infected agent, then population - 1 Susceptible ones. */
    method MakeAgents()
      requires agents == [] && currentId == 0 && drawn == 0
      modifies this`agents, this`currentId, this`drawn
      ensures |agents| == InitialSize(population) && currentId == |agents|
      ensures drawn == DrawsBefore(|agents|)
      ensures forall i :: 0 <= i < |agents| ==> agents[i] == Born(i)
    {
      AddPerson(Infected(true, InitialEnergy(true)));
      var i := 0;
      while i < population - 1
        invariant 0 <= i && (i == 0 || i <= population - 1)
        invariant |agents| == i + 1 && currentId == |agents| && drawn == DrawsBefore(|agents|)
        invariant forall j :: 0 <= j < |agents| ==> agents[j] == Born(j)
      {
        AddPerson(Susceptible);
        i := i + 1;
      }
    }

    /** count(name) */
    method Count(name: string) returns (num: nat)
      ensures num == Tally(agents, name)
    {
      num := 0;
      for i := 0 to |agents|
        invariant num == Tally(agents[..i], name)
      {
        assert agents[..i + 1][..i] == agents[..i];
        if Name(agents[i].health) == name {
          num := num + 1;
        }
      }
      assert agents[..|agents|] == agents;
    }

    /** active(kind) */
    method Active(kind: string) returns (num: nat)
      ensures num == ActiveTally(agents, kind)
    {
      num := 0;
      for i := 0 to |agents|
        invariant num == ActiveTally(agents[..i], kind)
      {
        assert agents[..i + 1][..i] == agents[..i];
        if agents[i].health.Infected? {
          if kind == "asymptomatic" {
            if agents[i].health.asymptomatic {
              num := num + 1;
            }
          } else {
            if !agents[i].health.asymptomatic {
              num := num + 1;
            }
          }
        }
      }
      assert agents[..|agents|] == agents;
    }

    /** The snapshot of Susceptible keys that starts the infection pass. */
    method SusceptibleKeys() returns (keys: seq<nat>)
      ensures keys == Ids(Susceptibles(agents))
    {
      keys := [];
      for i := 0 to |agents|
        invariant keys == Ids(Susceptibles(agents[..i]))
      {
        assert agents[..i + 1][..i] == agents[..i];
        if agents[i].health.Susceptible? {
          keys := keys + [agents[i].id];
        }
      }
      assert agents[..|agents|] == agents;
    }

    /** The neighbour scan of one candidate: is some neighbour Infected? */
    method HasInfectedNeighbour(pos: Point) returns (found: bool)
      ensures found <==> Exposed(agents, pos)
    {
      found := false;
      var i := 0;
      while i < |agents|
        invariant 0 <= i <= |agents|
        invariant !found
        invariant forall j :: 0 <= j < i ==> !(agents[j].health.Infected? && near(pos, agents[j].pos, socialDistance))
      {
        var neighbour := agents[i];
        if near(pos, neighbour.pos, socialDistance) && neighbour.health.Infected? {
          ExposedBy(agents, pos, neighbour);
          found := true;
          return;
        }
        i := i + 1;
      }
    }

    /** The candidates from position i on have not been visited and are still in N. */
    ghost predicate Pending(C: seq<Agent>, i: nat, N: seq<Agent>) {
      i <= |C| && forall j :: i <= j < |C| ==> C[j] in N
    }

    /** Every visited candidate that had an Infected neighbour in O is gone from N. */
    ghost predicate Decided(O: seq<Agent>, C: seq<Agent>, i: nat, N: seq<Agent>) {
      forall j :: 0 <= j < i && j < |C| && Exposed(O, C[j].pos) ==> C[j] !in N
    }

    /** The agents that were not Susceptible are all still present. */
    ghost predicate Kept(O: seq<Agent>, N: seq<Agent>) {
      forall o :: o in O && !o.health.Susceptible? ==> o in N
    }

    /**
     * The agents removed from O are exactly the keys of `succ`, each replaced
     * by its image, and the agents added are exactly the images.
     */
    ghost predicate Paired(O: seq<Agent>, N: seq<Agent>, succ: map<Agent, Agent>, c0: nat, d0: nat, d1: nat) {
      && (forall o :: o in O && o !in N ==> o in succ)
      && (forall o :: o in succ ==>
            && o in O && o !in N
            && succ[o] in N && succ[o] !in O
            && InfectedAs(o, succ[o], c0) && FromDraw(succ[o], d0, d1) && Exposed(N, o.pos))
      && (forall a :: a in N && a !in O ==> a in succ.Values)
    }

    /** What holds of the infection pass after the first i candidates of C have been visited. */
    ghost predicate InfectInv(O: seq<Agent>, C: seq<Agent>, i: nat, N: seq<Agent>, succ: map<Agent, Agent>,
                              c0: nat, d0: nat, d1: nat) {
      && Pending(C, i, N) && Decided(O, C, i, N) && Kept(O, N)
      && Paired(O, N, succ, c0, d0, d1)
    }

    /** A candidate with no Infected neighbour stays as it is. */
    lemma InfectSkip(O: seq<Agent>, C: seq<Agent>, i: nat, N: seq<Agent>, succ: map<Agent, Agent>,
                     c0: nat, d0: nat, d1: nat)
      requires InfectInv(O, C, i, N, succ, c0, d0, d1) && i < |C|
      requires !Exposed(N, C[i].pos)
      ensures InfectInv(O, C, i + 1, N, succ, c0, d0, d1)
    {
      if Exposed(O, C[i].pos) {
        var x := O[InfectedNeighbour(O, C[i].pos)];
        assert x in O;
        ExposedBy(N, C[i].pos, x);
      }
    }

    lemma ConvertPending(C: seq<Agent>, i: nat, N: seq<Agent>, k: nat, p: Agent)
      requires Pending(C, i, N) && i < |C| && DistinctIds(C)
      requires k < |N| && N[k] == C[i]
      ensures Pending(C, i + 1, Replace(N, k, p))
    {
      forall j | i + 1 <= j < |C| ensures C[j] in Replace(N, k, p) {
        assert C[i].id != C[j].id;
      }
    }

    lemma ConvertDecided(O: seq<Agent>, C: seq<Agent>, i: nat, N: seq<Agent>, k: nat, p: Agent)
      requires Decided(O, C, i, N) && i < |C|
      requires k < |N| && N[k] == C[i] && DistinctIds(N)
      requires forall x :: x in N ==> x.id < p.id
      requires forall x :: x in C ==> x.id < p.id
      ensures Decided(O, C, i + 1, Replace(N, k, p))
    {
      ReplaceFresh(N, k, p);
      forall j | 0 <= j < i && Exposed(O, C[j].pos) ensures C[j] !in Replace(N, k, p) {
        assert C[j] in C;
      }
    }

    lemma ConvertKept(O: seq<Agent>, N: seq<Agent>, k: nat, p: Agent)
      requires Kept(O, N) && k < |N| && N[k].health.Susceptible?
      ensures Kept(O, Replace(N, k, p))
    {
    }

    /** Replacing a Susceptible agent leaves every Infected agent in place, so exposure persists. */
    lemma ExposedAfterReplace(N: seq<Agent>, k: nat, p: Agent, q: Point)
      requires k < |N| && N[k].health.Susceptible? && Exposed(N, q)
      ensures Exposed(Replace(N, k, p), q)
    {
      var x := N[InfectedNeighbour(N, q)];
      assert x in N && x != N[k];
      ExposedBy(Replace(N, k, p), q, x);
    }

    lemma ConvertPaired(O: seq<Agent>, N: seq<Agent>, succ: map<Agent, Agent>, k: nat, p: Agent,
                        c0: nat, d0: nat, d1: nat, d2: nat)
      requires Paired(O, N, succ, c0, d0, d1)
      requires k < |N| && N[k] in O && DistinctIds(N) && Exposed(N, N[k].pos)
      requires forall x :: x in N ==> x.id < p.id
      requires forall x :: x in O ==> x.id <= c0
      requires InfectedAs(N[k], p, c0) && FromDraw(p, d0, d2) && d1 <= d2
      ensures Paired(O, Replace(N, k, p), succ[N[k] := p], c0, d0, d2)
    {
      var o0 := N[k];
      var N' := Replace(N, k, p);
      var succ' := succ[o0 := p];
      ReplaceFresh(N, k, p);
      assert o0 !in succ;
      assert p !in O;
      forall o | o in succ' ensures
          && o in O && o !in N'
          && succ'[o] in N' && succ'[o] !in O
          && InfectedAs(o, succ'[o], c0) && FromDraw(succ'[o], d0, d2) && Exposed(N', o.pos)
      {
        ExposedAfterReplace(N, k, p, o.pos);
        if o != o0 {
          assert succ[o] in N;
          assert succ[o] != o0;
        }
      }
      forall a | a in N' && a !in O ensures a in succ'.Values {
        if a == p {
          assert succ'[o0] == p;
        } else {
          var o :| o in succ && succ[o] == a;
          assert succ'[o] == a;
        }
      }
    }

    /**
     * The agent that replaces a Susceptible agent `o` on infection: one draw
     * decides whether it is asymptomatic, it takes the next id and, in
     * imperial mode, o's anchors.
     */
    method NewInfected(o: Agent) returns (p: Agent)
      requires o.health.Susceptible? && WellFormed(o, imperial)
      modifies this`currentId, this`drawn
      ensures p.id == currentId == old(currentId) + 1
      ensures drawn == old(drawn) + 1 + (if imperial then 3 else 0)
      ensures InfectedAs(o, p, old(currentId)) && WellFormed(p, imperial)
      ensures p.health.asymptomatic == Asymptomatic(draws(old(drawn)), asymptomaticPercentage)
      ensures p == InfectedFrom(o, old(currentId), old(drawn))
      ensures FromDraw(p, old(drawn), drawn)
    {
      var u := NextDraw();
      var asymptomatic := Asymptomatic(u, asymptomaticPercentage);
      var id := NextId();
      p := NewPeople(id, o.pos, Infected(asymptomatic, InitialEnergy(asymptomatic)));
      if imperial {
        p := SetImperial(p, o.commute.value.home, o.commute.value.work, o.commute.value.travel);
      }
    }

    /**
     * The Infected agent that replaces candidate `o` when the last id handed
     * out is `last` and `d` draws have been consumed: it takes the next id, o's
     * position and anchors, and the asymptomatic flag of the next draw.
     */
    ghost function InfectedFrom(o: Agent, last: nat, d: nat): Agent {
      var asymptomatic := Asymptomatic(draws(d), asymptomaticPercentage);
      Agent(last + 1, o.pos, o.commute, Infected(asymptomatic, InitialEnergy(asymptomatic)))
    }

    /**
     * One visit of the infection pass, from stage s to stage t: candidate c is
     * looked up by its key and, if an agent within the social distance is
     * Infected at that moment (possibly one infected earlier in the same
     * pass), it is replaced by p, the agent InfectedFrom makes of it; otherwise
     * nothing changes.
     */
    ghost predicate VisitStep(s: Stage, c: Agent, p: Agent, t: Stage) {
      var k := IndexOf(s.agents, c.id);
      && 0 <= k && s.agents[k] == c
      && if Exposed(s.agents, c.pos) then
           && p == InfectedFrom(c, s.lastId, s.drawn)
           && t == Stage(Replace(s.agents, k, p), s.lastId + 1, s.drawn + 1 + (if imperial then 3 else 0))
         else
           t == s
    }

    /**
     * An agent infected during the pass is placed in the space at once: every
     * position within the social distance of the converted candidate is
     * exposed for the candidates visited after it.
     */
    lemma Cascade(s: Stage, c: Agent, p: Agent, t: Stage, q: Point)
      requires VisitStep(s, c, p, t) && Exposed(s.agents, c.pos)
      requires near(q, c.pos, socialDistance)
      ensures Exposed(t.agents, q)
    {
      var k := IndexOf(s.agents, c.id);
      assert t.agents[|t.agents| - 1] == p;
      ExposedBy(t.agents, q, p);
    }

    /** A candidate with an Infected neighbour is replaced by the new Infected agent p, which has the next id. */
    lemma InfectConvert(O: seq<Agent>, C: seq<Agent>, i: nat, N: seq<Agent>, succ: map<Agent, Agent>,
                        k: nat, p: Agent, c0: nat, d0: nat, d1: nat, d2: nat)
      requires C == Susceptibles(O) && DistinctIds(C) && (forall o :: o in O ==> o.id <= c0)
      requires InfectInv(O, C, i, N, succ, c0, d0, d1) && i < |C|
      requires k < |N| && N[k] == C[i] && Exposed(N, C[i].pos)
      requires p.id > c0 && Population(N, p.id - 1, imperial) && WellFormed(p, imperial)
      requires InfectedAs(C[i], p, c0) && FromDraw(p, d0, d2) && d1 <= d2
      ensures InfectInv(O, C, i + 1, Replace(N, k, p), succ[C[i] := p], c0, d0, d2)
      ensures Population(Replace(N, k, p), p.id, imperial) && |Replace(N, k, p)| == |N|
    {
      assert C[i] in C;
      ConvertPending(C, i, N, k, p);
      ConvertDecided(O, C, i, N, k, p);
      ConvertKept(O, N, k, p);
      ConvertPaired(O, N, succ, k, p, c0, d0, d1, d2);
      PopulationReplace(N, p.id - 1, imperial, k, p);
    }

    /**
     * One candidate of the infection pass: the agent with key C[i].id is looked
     * up and, if some agent within the social distance is Infected, replaced by
     * a new Infected agent with the next id, whose asymptomatic flag comes
     * from the next draw.
     */
    method Visit(ghost O: seq<Agent>, ghost C: seq<Agent>, i: nat, key: nat, ghost succ: map<Agent, Agent>,
                 ghost c0: nat, ghost d0: nat)
      returns (ghost succ': map<Agent, Agent>, ghost p: Agent)
      requires Valid() && currentId >= c0 && drawn >= d0
      requires C == Susceptibles(O) && DistinctIds(C) && (forall o :: o in O ==> o.id <= c0)
      requires i < |C| && key == C[i].id
      requires InfectInv(O, C, i, agents, succ, c0, d0, drawn)
      modifies this`agents, this`currentId, this`drawn
      ensures Valid() && currentId >= c0 && drawn >= d0
      ensures InfectInv(O, C, i + 1, agents, succ', c0, d0, drawn)
      ensures VisitStep(Stage(old(agents), old(currentId), old(drawn)), C[i], p, Stage(agents, currentId, drawn))
    {
      succ', p := succ, C[i];
      assert C[i] in C;
      LookupFinds(agents, C[i]);
      var k := IndexOf(agents, key);
      var agent := agents[k];
      var exposed := HasInfectedNeighbour(agent.pos);
      if exposed {
        succ', p := Convert(O, C, i, k, succ, c0, d0);
      } else {
        InfectSkip(O, C, i, agents, succ, c0, d0, drawn);
      }
    }

    /** Visit of an exposed candidate C[i], found at position k: it is replaced by a new Infected agent. */
    method Convert(ghost O: seq<Agent>, ghost C: seq<Agent>, i: nat, k: nat, ghost succ: map<Agent, Agent>,
                   ghost c0: nat, ghost d0: nat)
      returns (ghost succ': map<Agent, Agent>, person: Agent)
      requires Valid() && currentId >= c0 && drawn >= d0
      requires C == Susceptibles(O) && DistinctIds(C) && (forall o :: o in O ==> o.id <= c0)
      requires i < |C| && k == IndexOf(agents, C[i].id) && 0 <= k < |agents| && agents[k] == C[i]
      requires Exposed(agents, C[i].pos)
      requires InfectInv(O, C, i, agents, succ, c0, d0, drawn)
      modifies this`agents, this`currentId, this`drawn
      ensures Valid() && currentId >= c0 && drawn >= d0
      ensures InfectInv(O, C, i + 1, agents, succ', c0, d0, drawn)
      ensures VisitStep(Stage(old(agents), old(currentId), old(drawn)), C[i], person, Stage(agents, currentId, drawn))
    {
      ghost var s := Stage(agents, currentId, drawn);
      var agent := agents[k];
      assert agent in agents;
      person := NewInfected(agent);
      InfectConvert(O, C, i, agents, succ, k, person, c0, d0, s.drawn, drawn);
      agents := Replace(agents, k, person);
      succ' := succ[agent := person];
      ExposedStep(s, agent, k, person);
    }

    /** The visit of an exposed candidate c, at position k of stage s, replaces it by p. */
    lemma ExposedStep(s: Stage, c: Agent, k: int, p: Agent)
      requires k == IndexOf(s.agents, c.id) && 0 <= k < |s.agents| && s.agents[k] == c && Exposed(s.agents, c.pos)
      requires p == InfectedFrom(c, s.lastId, s.drawn)
      ensures VisitStep(s, c, p, Stage(Replace(s.agents, k, p), s.lastId + 1, s.drawn + 1 + (if imperial then 3 else 0)))
    {
    }

    /** Visit, recording the stage it reaches and the agent it may add. */
    method VisitTraced(ghost O: seq<Agent>, ghost C: seq<Agent>, i: nat, key: nat, ghost succ: map<Agent, Agent>,
                       ghost c0: nat, ghost d0: nat, ghost trace: seq<Stage>, ghost ps: seq<Agent>)
      returns (ghost succ': map<Agent, Agent>, ghost trace': seq<Stage>, ghost ps': seq<Agent>)
      requires Valid() && currentId >= c0 && drawn >= d0
      requires C == Susceptibles(O) && DistinctIds(C) && (forall o :: o in O ==> o.id <= c0)
      requires i < |C| && key == C[i].id
      requires InfectInv(O, C, i, agents, succ, c0, d0, drawn)
      requires |ps| == i && VisitChain(C, trace, ps) && trace[i] == Stage(agents, currentId, drawn)
      modifies this`agents, this`currentId, this`drawn
      ensures Valid() && currentId >= c0 && drawn >= d0
      ensures InfectInv(O, C, i + 1, agents, succ', c0, d0, drawn)
      ensures |ps'| == i + 1 && VisitChain(C, trace', ps') && trace'[i + 1] == Stage(agents, currentId, drawn)
      ensures trace'[0] == trace[0]
    {
      ghost var p;
      succ', p := Visit(O, C, i, key, succ, c0, d0);
      ChainExtend(C, trace, ps, p, Stage(agents, currentId, drawn));
      trace', ps' := trace + [Stage(agents, currentId, drawn)], ps + [p];
    }

    /**
     * The infection pass from stage s to stage t as a chain of visits: the
     * candidates are the agents of s that are Susceptible, in schedule order,
     * and trace[j] is the stage before the j-th visit.
     */
    ghost predicate InfectTrace(s: Stage, trace: seq<Stage>, ps: seq<Agent>, t: Stage) {
      var C := Susceptibles(s.agents);
      && |ps| == |C| && VisitChain(C, trace, ps)
      && trace[0] == s && trace[|C|] == t
    }

    /** The first |ps| candidates of C have been visited, trace[j] being the stage before the j-th visit. */
    ghost predicate VisitChain(C: seq<Agent>, trace: seq<Stage>, ps: seq<Agent>) {
      && |trace| == |ps| + 1 && |ps| <= |C|
      && forall j :: 0 <= j < |ps| ==> VisitStep(trace[j], C[j], ps[j], trace[j + 1])
    }

    lemma ChainExtend(C: seq<Agent>, trace: seq<Stage>, ps: seq<Agent>, p: Agent, t: Stage)
      requires VisitChain(C, trace, ps) && |ps| < |C|
      requires VisitStep(trace[|ps|], C[|ps|], p, t)
      ensures VisitChain(C, trace + [t], ps + [p])
    {
      var trace', ps' := trace + [t], ps + [p];
      forall j | 0 <= j < |ps'| ensures VisitStep(trace'[j], C[j], ps'[j], trace'[j + 1]) {
        assert trace'[j] == trace[j];
        if j < |ps| {
          assert trace'[j + 1] == trace[j + 1] && ps'[j] == ps[j];
        }
      }
    }

    /**
     * What the infection pass makes of population O: the agents that were not
     * Susceptible stay, each agent gone is replaced (`succ`) by a new Infected
     * agent, and nothing else is added.
     */
    ghost predicate InfectOutcome(O: seq<Agent>, M: seq<Agent>, succ: map<Agent, Agent>, c0: nat, d0: nat, d1: nat) {
      && (forall o :: o in O && !o.health.Susceptible? ==> o in M)
      && (forall o :: o in O && o !in M ==> o in succ)
      && (forall o :: o in succ ==>
            && o in O && o !in M
            && succ[o] in M && succ[o] !in O
            && InfectedAs(o, succ[o], c0)
            && FromDraw(succ[o], d0, d1))
      && (forall a :: a in M && a !in O ==> a in succ.Values)
    }

    /**
     * Who the infection pass infects: every Susceptible agent with an Infected
     * neighbour in O, and only agents that had an Infected neighbour when
     * they were replaced.
     */
    ghost predicate Contagion(O: seq<Agent>, M: seq<Agent>, succ: map<Agent, Agent>) {
      && (forall o :: o in O && o.health.Susceptible? && Exposed(O, o.pos) ==> o !in M)
      && (forall o :: o in succ ==> Exposed(M, o.pos))
    }

    /**
     * infect: every agent that was Susceptible when the pass started is
     * visited once, in schedule order; if some agent within the social
     * distance is Infected at that moment (including agents infected earlier
     * in the same pass) it is replaced by a new Infected agent with a fresh
     * id, at the same position and with the same anchors. `succ` maps each
     * replaced agent to its replacement. `trace` holds the stage before each
     * visit and after the last, and `ps` the agent each visit may add: the
     * pass is the chain of VisitStep over the Susceptible agents in order.
     */
    method Infect() returns (ghost succ: map<Agent, Agent>, ghost trace: seq<Stage>, ghost ps: seq<Agent>)
      requires Valid()
      modifies this`agents, this`currentId, this`drawn
      ensures Valid()
      ensures currentId >= old(currentId) && drawn >= old(drawn)
      ensures |agents| == |old(agents)|
      ensures InfectOutcome(old(agents), agents, succ, old(currentId), old(drawn), drawn)
      ensures Contagion(old(agents), agents, succ)
      ensures InfectTrace(Stage(old(agents), old(currentId), old(drawn)), trace, ps, Stage(agents, currentId, drawn))
    {
      ghost var O, c0, d0 := agents, currentId, drawn;
      succ := map[];
      trace, ps := [Stage(agents, currentId, drawn)], [];
      var keys := SusceptibleKeys();
      ghost var C := Susceptibles(O);
      SusceptiblesDistinct(O);
      var i := 0;
      while i < |keys|
        invariant 0 <= i <= |keys| == |C|
        invariant forall j :: 0 <= j < |keys| ==> keys[j] == C[j].id
        invariant Valid() && currentId >= c0 && drawn >= d0
        invariant C == Susceptibles(O) && DistinctIds(C)
        invariant forall o :: o in O ==> o.id <= c0
        invariant InfectInv(O, C, i, agents, succ, c0, d0, drawn)
        invariant |ps| == i && VisitChain(C, trace, ps)
        invariant trace[0] == Stage(O, c0, d0) && trace[i] == Stage(agents, currentId, drawn)
      {
        succ, trace, ps := VisitTraced(O, C, i, keys[i], succ, c0, d0, trace, ps);
        i := i + 1;
      }
      assert Decided(O, C, |C|, agents);
      forall o | o in O && o.health.Susceptible? && Exposed(O, o.pos) ensures o !in agents {
        assert o in C;
      }
    }

    /** Where People.step moves agent `o` in phase `ph`, given its two draws. */
    ghost predicate MovedBy(ph: Phase, o: Agent, a: Agent, u1: real, u2: real) {
      (imperial ==> o.commute.Some?) &&
      a.pos == Target(ph, imperial, o, mobility, width, height, heading, u1, u2)
    }

    /** `a`'s position is `o`'s target in phase `ph` for two consecutive draws taken between d0 and d1. */
    ghost predicate Moved(ph: Phase, o: Agent, a: Agent, d0: nat, d1: nat) {
      exists d :: d0 <= d && d + 2 <= d1 && MovedBy(ph, o, a, draws(d), draws(d + 1))
    }

    /**
     * The own step of the agent at position k, from stage s to stage t in
     * phase `ph`: it moves to the target of the movement rule for the next two
     * draws; an agent whose infection ends is replaced by a Recovered agent
     * with the next id, its anchors and three more draws in imperial mode, and
     * any other agent is updated in place with one Tick of its health.
     */
    ghost predicate AgentStepAt(ph: Phase, s: Stage, k: nat, a: Agent, t: Stage) {
      && k < |s.agents|
      && (imperial ==> s.agents[k].commute.Some?)
      && var o := s.agents[k];
         var pos := Target(ph, imperial, o, mobility, width, height, heading, draws(s.drawn), draws(s.drawn + 1));
         if Recovering(o.health) then
           && a == Agent(s.lastId + 1, pos, o.commute, Recovered)
           && t == Stage(Replace(s.agents, k, a), s.lastId + 1, s.drawn + 2 + (if imperial then 3 else 0))
         else
           && a == o.(pos := pos, health := Tick(o.health))
           && t == Stage(s.agents[k := a], s.lastId, s.drawn + 2)
    }

    /** The own step of the agent with key `key`, as the scheduler activates it. */
    ghost predicate AgentStep(ph: Phase, s: Stage, key: nat, a: Agent, t: Stage) {
      var k := IndexOf(s.agents, key);
      0 <= k && AgentStepAt(ph, s, k, a, t)
    }

    /**
     * The agent's own step (People.step and its subclasses): two draws choose
     * the target it moves to; an Infected agent then loses one unit of energy
     * and, when none is left, is replaced by a Recovered agent with the next
     * id at its new position, carrying the same anchors.
     */
    method StepAgent(k: nat) returns (a: Agent)
      requires Valid() && k < |agents|
      modifies this`agents, this`currentId, this`drawn
      ensures Valid()
      ensures Follows(old(agents)[k], a, old(currentId))
      ensures MovedBy(phase, old(agents)[k], a, draws(old(drawn)), draws(old(drawn) + 1))
      ensures currentId >= old(currentId) && drawn >= old(drawn) + 2
      ensures Swapped(old(agents), agents, old(agents)[k], a)
      ensures AgentStepAt(phase, Stage(old(agents), old(currentId), old(drawn)), k, a, Stage(agents, currentId, drawn))
    {
      ghost var s := Stage(agents, currentId, drawn);
      var o := agents[k];
      assert o in agents;
      var u1 := NextDraw();
      var u2 := NextDraw();
      var pos := Target(phase, imperial, o, mobility, width, height, heading, u1, u2);
      if Recovering(o.health) {
        a := Recover(k, pos);
      } else {
        a := o.(pos := pos, health := Tick(o.health));
        UpdateSwaps(agents, k, a);
        PopulationUpdate(agents, currentId, imperial, k, a);
        agents := agents[k := a];
      }
      StepAt(phase, s, k, a, pos);
    }

    /**
     * The end of an infection: the agent at position k is replaced by a new
     * Recovered agent with the next id at pos, carrying the same anchors.
     */
    method Recover(k: nat, pos: Point) returns (a: Agent)
      requires Valid() && k < |agents|
      modifies this`agents, this`currentId, this`drawn
      ensures Valid()
      ensures a == Agent(old(currentId) + 1, pos, old(agents)[k].commute, Recovered)
      ensures agents == Replace(old(agents), k, a) && currentId == old(currentId) + 1
      ensures drawn == old(drawn) + (if imperial then 3 else 0)
      ensures Swapped(old(agents), agents, old(agents)[k], a)
    {
      var o := agents[k];
      assert o in agents;
      var id := NextId();
      a := NewPeople(id, pos, Recovered);
      if imperial {
        a := SetImperial(a, o.commute.value.home, o.commute.value.work, o.commute.value.travel);
      }
      ReplaceSwaps(agents, k, a);
      PopulationReplace(agents, currentId - 1, imperial, k, a);
      agents := Replace(agents, k, a);
    }

    /** An own step whose movement landed on pos, stated stage to stage. */
    lemma StepAt(ph: Phase, s: Stage, k: nat, a: Agent, pos: Point)
      requires k < |s.agents| && (imperial ==> s.agents[k].commute.Some?)
      requires pos == Target(ph, imperial, s.agents[k], mobility, width, height, heading, draws(s.drawn), draws(s.drawn + 1))
      requires Recovering(s.agents[k].health) ==> a == Agent(s.lastId + 1, pos, s.agents[k].commute, Recovered)
      requires !Recovering(s.agents[k].health) ==> a == s.agents[k].(pos := pos, health := Tick(s.agents[k].health))
      ensures Recovering(s.agents[k].health) ==>
                AgentStepAt(ph, s, k, a, Stage(Replace(s.agents, k, a), s.lastId + 1, s.drawn + 2 + (if imperial then 3 else 0)))
      ensures !Recovering(s.agents[k].health) ==> AgentStepAt(ph, s, k, a, Stage(s.agents[k := a], s.lastId, s.drawn + 2))
    {
    }

    /** `next` is defined on the activated agents of O. */
    ghost predicate ActivatedDomain(O: seq<Agent>, next: map<Agent, Agent>, seen: set<nat>) {
      && (forall o :: o in O && o.id in seen ==> o in next)
      && (forall o :: o in next ==> o in O && o.id in seen)
    }

    /** `next` maps each activated agent of O to what its own step in phase `ph` made of it. */
    ghost predicate ActivatedImages(ph: Phase, N: seq<Agent>, next: map<Agent, Agent>, c0: nat, d0: nat, d1: nat) {
      forall o :: o in next ==> next[o] in N && Follows(o, next[o], c0) && Moved(ph, o, next[o], d0, d1)
    }

    ghost predicate ActivatedSoFar(ph: Phase, O: seq<Agent>, N: seq<Agent>, next: map<Agent, Agent>, seen: set<nat>,
                              c0: nat, d0: nat, d1: nat) {
      ActivatedDomain(O, next, seen) && ActivatedImages(ph, N, next, c0, d0, d1)
    }

    /**
     * A move of m is a move of any agent o at the same position with the same
     * anchors, and stays a move in a wider window of draws.
     */
    lemma MovedWithin(ph: Phase, m: Agent, o: Agent, a: Agent, d0: nat, d1: nat, e0: nat, e1: nat)
      requires Moved(ph, m, a, d0, d1) && m.pos == o.pos && m.commute == o.commute
      requires e0 <= d0 && d1 <= e1
      ensures Moved(ph, o, a, e0, e1)
    {
      var d :| d0 <= d && d + 2 <= d1 && MovedBy(ph, m, a, draws(d), draws(d + 1));
      assert MovedBy(ph, o, a, draws(d), draws(d + 1));
    }

    /** The agents of O not yet activated are untouched, and N holds nothing else. */
    ghost predicate Waiting(O: seq<Agent>, N: seq<Agent>, next: map<Agent, Agent>, seen: set<nat>) {
      && (forall o :: o in O && o.id !in seen ==> o in N)
      && (forall a :: a in N ==> a in next.Values || (a in O && a.id !in seen))
    }

    lemma ActivateDomain(O: seq<Agent>, next: map<Agent, Agent>, seen: set<nat>, o: Agent, a: Agent)
      requires ActivatedDomain(O, next, seen) && DistinctIds(O) && o in O
      ensures ActivatedDomain(O, next[o := a], seen + {o.id})
    {
      forall x | x in O && x.id in seen + {o.id} ensures x in next[o := a] {
        if x.id == o.id {
          SameId(O, x, o);
        }
      }
    }

    /** Activating agent o of O, which becomes a, extends `next`. */
    lemma ActivateImages(ph: Phase, O: seq<Agent>, N: seq<Agent>, N': seq<Agent>, next: map<Agent, Agent>,
                         seen: set<nat>, o: Agent, a: Agent, c0: nat, d0: nat, d1: nat, d2: nat)
      requires ActivatedDomain(O, next, seen) && ActivatedImages(ph, N, next, c0, d0, d1)
      requires forall x :: x in O ==> x.id <= c0
      requires o in O && o.id !in seen && Swapped(N, N', o, a)
      requires Follows(o, a, c0) && Moved(ph, o, a, d0, d2) && d1 <= d2
      ensures ActivatedImages(ph, N', next[o := a], c0, d0, d2)
    {
      var next' := next[o := a];
      forall x | x in next' ensures next'[x] in N' && Follows(x, next'[x], c0) && Moved(ph, x, next'[x], d0, d2) {
        if x != o {
          var b := next[x];
          assert b in N && Follows(x, b, c0);
          assert b != o by {
            assert o.id <= c0 && x.id in seen;
          }
          MovedWithin(ph, x, x, b, d0, d1, d0, d2);
        }
      }
    }

    lemma ActivateWaiting(O: seq<Agent>, N: seq<Agent>, N': seq<Agent>, next: map<Agent, Agent>,
                          seen: set<nat>, o: Agent, a: Agent)
      requires Waiting(O, N, next, seen) && DistinctIds(O)
      requires o in O && o.id !in seen && o !in next && Swapped(N, N', o, a)
      ensures Waiting(O, N', next[o := a], seen + {o.id})
    {
      var next' := next[o := a];
      forall b | b in N' ensures b in next'.Values || (b in O && b.id !in seen + {o.id}) {
        if b == a {
          assert next'[o] == a;
        } else if b in next.Values {
          var x :| x in next && next[x] == b;
          assert next'[x] == b;
        }
      }
    }

    /** The activation of the agent with key `key`, one iteration of schedule.step. */
    method ActivateKey(ghost O: seq<Agent>, key: nat, ghost next: map<Agent, Agent>, ghost seen: set<nat>,
                       ghost c0: nat, ghost d0: nat)
      returns (ghost next': map<Agent, Agent>, ghost stepped: Agent)
      requires Valid() && currentId >= c0 && drawn >= d0
      requires DistinctIds(O) && (forall x :: x in O ==> x.id <= c0)
      requires key in Ids(O) && key !in seen
      requires ActivatedSoFar(phase, O, agents, next, seen, c0, d0, drawn) && Waiting(O, agents, next, seen)
      modifies this`agents, this`currentId, this`drawn
      ensures Valid() && currentId >= c0 && drawn >= d0
      ensures ActivatedSoFar(phase, O, agents, next', seen + {key}, c0, d0, drawn)
      ensures Waiting(O, agents, next', seen + {key})
      ensures AgentStep(phase, Stage(old(agents), old(currentId), old(drawn)), key, stepped, Stage(agents, currentId, drawn))
    {
      IdsMembers(O, key);
      ghost var o :| o in O && o.id == key;
      LookupFinds(agents, o);
      var k := IndexOf(agents, key);
      ghost var N, d1 := agents, drawn;
      var a := StepAgent(k);
      ActivateOne(phase, O, N, agents, next, seen, o, a, c0, d0, d1, drawn);
      next', stepped := next[o := a], a;
    }

    /** The bookkeeping of one activation: agent o of O, waiting in N, became a in N'. */
    lemma ActivateOne(ph: Phase, O: seq<Agent>, N: seq<Agent>, N': seq<Agent>, next: map<Agent, Agent>,
                      seen: set<nat>, o: Agent, a: Agent, c0: nat, d0: nat, d1: nat, d2: nat)
      requires DistinctIds(O) && (forall x :: x in O ==> x.id <= c0)
      requires ActivatedSoFar(ph, O, N, next, seen, c0, d0, d1) && Waiting(O, N, next, seen)
      requires o in O && o.id !in seen && Swapped(N, N', o, a)
      requires Follows(o, a, c0) && d0 <= d1 && d1 + 2 <= d2 && MovedBy(ph, o, a, draws(d1), draws(d1 + 1))
      ensures ActivatedSoFar(ph, O, N', next[o := a], seen + {o.id}, c0, d0, d2)
      ensures Waiting(O, N', next[o := a], seen + {o.id})
    {
      assert Moved(ph, o, a, d0, d2);
      ActivateDomain(O, next, seen, o, a);
      ActivateImages(ph, O, N, N', next, seen, o, a, c0, d0, d1, d2);
      ActivateWaiting(O, N, N', next, seen, o, a);
    }

    /** ActivateKey, recording the stage it reaches and the agent its step made. */
    method ActivateKeyTraced(ghost O: seq<Agent>, keys: seq<nat>, i: nat, ghost next: map<Agent, Agent>,
                             ghost seen: set<nat>, ghost c0: nat, ghost d0: nat,
                             ghost trace: seq<Stage>, ghost stepped: seq<Agent>)
      returns (ghost next': map<Agent, Agent>, ghost trace': seq<Stage>, ghost stepped': seq<Agent>)
      requires Valid() && currentId >= c0 && drawn >= d0
      requires DistinctIds(O) && (forall x :: x in O ==> x.id <= c0)
      requires i < |keys| && keys[i] in Ids(O) && keys[i] !in seen
      requires ActivatedSoFar(phase, O, agents, next, seen, c0, d0, drawn) && Waiting(O, agents, next, seen)
      requires |stepped| == i && AgentChain(phase, keys, trace, stepped)
      requires trace[i] == Stage(agents, currentId, drawn)
      modifies this`agents, this`currentId, this`drawn
      ensures Valid() && currentId >= c0 && drawn >= d0
      ensures ActivatedSoFar(phase, O, agents, next', seen + {keys[i]}, c0, d0, drawn)
      ensures Waiting(O, agents, next', seen + {keys[i]})
      ensures |stepped'| == i + 1 && AgentChain(phase, keys, trace', stepped')
      ensures trace'[i + 1] == Stage(agents, currentId, drawn) && trace'[0] == trace[0]
    {
      ghost var a;
      next', a := ActivateKey(O, keys[i], next, seen, c0, d0);
      AgentChainExtend(phase, keys, trace, stepped, a, Stage(agents, currentId, drawn));
      trace', stepped' := trace + [Stage(agents, currentId, drawn)], stepped + [a];
    }

    /** The first |stepped| keys have been activated, trace[j] being the stage before the j-th activation. */
    ghost predicate AgentChain(ph: Phase, keys: seq<nat>, trace: seq<Stage>, stepped: seq<Agent>) {
      && |trace| == |stepped| + 1 && |stepped| <= |keys|
      && forall j :: 0 <= j < |stepped| ==> AgentStep(ph, trace[j], keys[j], stepped[j], trace[j + 1])
    }

    lemma AgentChainExtend(ph: Phase, keys: seq<nat>, trace: seq<Stage>, stepped: seq<Agent>, a: Agent, t: Stage)
      requires AgentChain(ph, keys, trace, stepped) && |stepped| < |keys|
      requires AgentStep(ph, trace[|stepped|], keys[|stepped|], a, t)
      ensures AgentChain(ph, keys, trace + [t], stepped + [a])
      ensures (trace + [t])[0] == trace[0] && (trace + [t])[|stepped| + 1] == t
    {
      var trace', stepped' := trace + [t], stepped + [a];
      forall j | 0 <= j < |stepped'| ensures AgentStep(ph, trace'[j], keys[j], stepped'[j], trace'[j + 1]) {
        assert trace'[j] == trace[j];
        if j < |stepped| {
          assert trace'[j + 1] == trace[j + 1] && stepped'[j] == stepped[j];
        }
      }
    }

    /**
     * The scheduler's pass in phase `ph` from stage s to stage t as a chain of
     * own steps: the keys of s are activated in the order shuffle gives at
     * step n, and trace[j] is the stage before the j-th activation.
     */
    ghost predicate ScheduleTrace(ph: Phase, n: nat, s: Stage, trace: seq<Stage>, stepped: seq<Agent>, t: Stage) {
      var keys := shuffle(n, Ids(s.agents));
      && |stepped| == |keys| && AgentChain(ph, keys, trace, stepped)
      && trace[0] == s && trace[|keys|] == t
    }

    /** How many of the first n activations recorded in `trace` ended an infection. */
    ghost function Recoveries(keys: seq<nat>, trace: seq<Stage>, n: nat): nat
      requires n < |trace| && n <= |keys|
    {
      if n == 0 then 0
      else
        var s := trace[n - 1];
        var k := IndexOf(s.agents, keys[n - 1]);
        Recoveries(keys, trace, n - 1) + (if 0 <= k && Recovering(s.agents[k].health) then 1 else 0)
    }

    /**
     * After n activations the scheduler has handed out one id per ended
     * infection, taken two draws per activation and three more per ended
     * infection in imperial mode, and kept the number of agents.
     */
    lemma {:induction false} ChainCounts(ph: Phase, keys: seq<nat>, trace: seq<Stage>, stepped: seq<Agent>, n: nat)
      requires AgentChain(ph, keys, trace, stepped) && n <= |stepped|
      ensures trace[n].lastId == trace[0].lastId + Recoveries(keys, trace, n)
      ensures trace[n].drawn == trace[0].drawn + 2 * n + (if imperial then 3 else 0) * Recoveries(keys, trace, n)
      ensures |trace[n].agents| == |trace[0].agents|
    {
      if n > 0 {
        ChainCounts(ph, keys, trace, stepped, n - 1);
        assert AgentStep(ph, trace[n - 1], keys[n - 1], stepped[n - 1], trace[n]);
      }
    }

    /** Once every key of O has been activated, `next` pairs O with N completely. */
    lemma ActivatedAll(ph: Phase, O: seq<Agent>, N: seq<Agent>, next: map<Agent, Agent>, seen: set<nat>,
                       c0: nat, d0: nat, d1: nat)
      requires ActivatedSoFar(ph, O, N, next, seen, c0, d0, d1) && Waiting(O, N, next, seen)
      requires forall x :: x in O ==> x.id in seen
      ensures ScheduleOutcome(ph, O, N, next, c0, d0, d1)
    {
    }

    /**
     * What the scheduler's pass in phase `ph` makes of population M: `next`
     * maps every agent of M to the agent its own step made of it, and N
     * holds exactly those.
     */
    ghost predicate ScheduleOutcome(ph: Phase, M: seq<Agent>, N: seq<Agent>, next: map<Agent, Agent>,
                               c0: nat, d0: nat, d1: nat) {
      && (forall o :: o in M <==> o in next)
      && (forall o :: o in next ==> next[o] in N && Follows(o, next[o], c0) && Moved(ph, o, next[o], d0, d1))
      && (forall a :: a in N ==> a in next.Values)
    }

    /**
     * schedule.step: every agent present at the start is activated once, in
     * the order the scheduler's shuffle gives its keys; agents added during
     * the pass are not activated. `next` maps each agent present at the start
     * to what its own step made of it.
     */
    method ScheduleStep() returns (ghost next: map<Agent, Agent>, ghost trace: seq<Stage>, ghost stepped: seq<Agent>)
      requires Valid() && OraclesSound()
      modifies this`agents, this`currentId, this`drawn, this`steps
      ensures Valid() && steps == old(steps) + 1
      ensures currentId >= old(currentId) && drawn >= old(drawn)
      ensures |agents| == |old(agents)|
      ensures ScheduleOutcome(phase, old(agents), agents, next, old(currentId), old(drawn), drawn)
      ensures ScheduleTrace(phase, old(steps), Stage(old(agents), old(currentId), old(drawn)), trace, stepped,
                            Stage(agents, currentId, drawn))
    {
      ghost var O, c0, d0 := agents, currentId, drawn;
      trace, stepped := [Stage(agents, currentId, drawn)], [];
      IdsDistinct(O);
      var keys := shuffle(steps, Ids(agents));
      assert IsShuffle(keys, Ids(O));
      steps := steps + 1;
      next := map[];
      ghost var seen: set<nat> := {};
      var i := 0;
      while i < |keys|
        invariant 0 <= i <= |keys| && steps == old(steps) + 1
        invariant Valid() && currentId >= c0 && drawn >= d0
        invariant SeenPrefix(keys, i, seen)
        invariant ActivatedSoFar(phase, O, agents, next, seen, c0, d0, drawn)
        invariant Waiting(O, agents, next, seen)
        invariant |stepped| == i && AgentChain(phase, keys, trace, stepped)
        invariant trace[0] == Stage(O, c0, d0) && trace[i] == Stage(agents, currentId, drawn)
      {
        next, trace, stepped := ActivateKeyTraced(O, keys, i, next, seen, c0, d0, trace, stepped);
        SeenNext(keys, i, seen);
        seen := seen + {keys[i]};
        i := i + 1;
      }
      forall o | o in O ensures o.id in seen {
        IdsMembers(O, o.id);
        var j :| 0 <= j < |keys| && keys[j] == o.id;
        assert keys[j] in seen;
      }
      ActivatedAll(phase, O, agents, next, seen, c0, d0, drawn);
    }

    /**
     * `heir` maps every agent of O to the agent of N that continues it after
     * one model tick in phase `ph`: health one tick further, the same anchors,
     * moved by two draws of the window [d0, d1); every agent of N is an heir.
     */
    ghost predicate Inherits(ph: Phase, O: seq<Agent>, N: seq<Agent>, heir: map<Agent, Agent>, d0: nat, d1: nat) {
      && (forall o :: o in O <==> o in heir)
      && (forall o :: o in heir ==> heir[o] in N && heir[o].commute == o.commute)
      && (forall o :: o in heir ==> TickedHealth(o.health, heir[o].health) && Moved(ph, o, heir[o], d0, d1))
      && (forall a :: a in N ==> a in heir.Values)
    }

    /**
     * A Susceptible agent o converted to m by the infection pass, whose own
     * step makes a of m, has a as an heir that took one step at full energy
     * and moved as o would have.
     */
    lemma HeirOfConverted(ph: Phase, o: Agent, m: Agent, a: Agent, c0: nat, c1: nat, d0: nat, d1: nat, d2: nat)
      requires InfectedAs(o, m, c0) && Follows(m, a, c1) && Moved(ph, m, a, d1, d2) && d0 <= d1
      ensures TickedHealth(o.health, a.health) && Moved(ph, o, a, d0, d2)
    {
      MovedWithin(ph, m, o, a, d1, d2, d0, d2);
    }

    /**
     * Composes the infection pass (O to M, `succ`) with the scheduler's pass
     * (M to N, `next`): every agent of O has an heir in N, reached through its
     * replacement if it was infected, and every agent of N is an heir.
     */
    lemma Heirs(ph: Phase, O: seq<Agent>, M: seq<Agent>, N: seq<Agent>, succ: map<Agent, Agent>,
                next: map<Agent, Agent>, c0: nat, c1: nat, d0: nat, d1: nat, d2: nat)
      returns (heir: map<Agent, Agent>)
      requires InfectOutcome(O, M, succ, c0, d0, d1)
      requires ScheduleOutcome(ph, M, N, next, c1, d1, d2) && d0 <= d1
      ensures Inherits(ph, O, N, heir, d0, d2)
      ensures forall o :: o in heir && o !in M ==> !heir[o].health.Susceptible?
      ensures Contagion(O, M, succ) ==>
                forall o :: o in heir && o.health.Susceptible? && Exposed(O, o.pos) ==> !heir[o].health.Susceptible?
    {
      heir := map o | o in O :: if o in succ then next[succ[o]] else next[o];
      forall o | o in heir ensures heir[o] in N && heir[o].commute == o.commute {
        if o in succ {
          var m := succ[o];
          assert m in M && InfectedAs(o, m, c0);
          assert m in next && Follows(m, next[m], c1);
        } else {
          assert o in M;
          assert o in next && Follows(o, next[o], c1);
        }
      }
      forall o | o in heir ensures TickedHealth(o.health, heir[o].health) && Moved(ph, o, heir[o], d0, d2) {
        if o in succ {
          var m := succ[o];
          assert m in M && InfectedAs(o, m, c0);
          assert m in next && Follows(m, next[m], c1) && Moved(ph, m, next[m], d1, d2);
          HeirOfConverted(ph, o, m, next[m], c0, c1, d0, d1, d2);
        } else {
          assert o in M;
          assert o in next && Follows(o, next[o], c1) && Moved(ph, o, next[o], d1, d2);
          MovedWithin(ph, o, o, next[o], d1, d2, d0, d2);
        }
      }
      forall o | o in heir && o !in M ensures !heir[o].health.Susceptible? {
        assert o in succ;
        var m := succ[o];
        assert m.health.Infected? by {
          assert InfectedAs(o, m, c0);
        }
        assert m in next;
        var a := next[m];
        assert heir[o] == a;
        assert a.health == Tick(m.health) by {
          assert Follows(m, a, c1);
        }
        assert Rank(a.health) >= Rank(m.health) == 1;
      }
      forall a | a in N ensures a in heir.Values {
        var m :| m in next && next[m] == a;
        if m in O {
          assert heir[m] == a;
        } else {
          var o :| o in succ && succ[o] == m;
          assert heir[o] == a;
        }
      }
    }

    /**
     * One model tick from stage s to stage t as recorded in r: the infection
     * pass from s to r.mid, then the scheduler's pass at step n, in phase `ph`,
     * from r.mid to t.
     */
    ghost predicate TickTrace(ph: Phase, n: nat, s: Stage, r: Passes, t: Stage) {
      && InfectTrace(s, r.infect, r.infected, r.mid)
      && ScheduleTrace(ph, n, r.mid, r.schedule, r.stepped, t)
    }

    /**
     * The state-changing part of step: the infection pass, then the next
     * phase, then the scheduler's pass over every agent. `heir` maps every
     * agent present before to the agent that continues it, and `passes`
     * records both passes stage by stage.
     */
    method Advance() returns (ghost heir: map<Agent, Agent>, ghost passes: Passes)
      requires Valid() && OraclesSound()
      modifies this`agents, this`currentId, this`drawn, this`phase, this`steps
      ensures Valid()
      ensures phase == NextPhase(old(phase)) && steps == old(steps) + 1
      ensures |agents| == |old(agents)|
      ensures currentId >= old(currentId) && drawn >= old(drawn)
      ensures Inherits(phase, old(agents), agents, heir, old(drawn), drawn)
      ensures forall o :: o in heir && o.health.Susceptible? && Exposed(old(agents), o.pos) ==>
                !heir[o].health.Susceptible?
      ensures TickTrace(phase, old(steps), Stage(old(agents), old(currentId), old(drawn)), passes,
                        Stage(agents, currentId, drawn))
    {
      ghost var O, c0, d0 := agents, currentId, drawn;
      ghost var succ, trace, ps := Infect();
      assert steps == old(steps) && phase == old(phase);
      ghost var M, c1, d1 := agents, currentId, drawn;
      phase := NextPhase(phase);
      ghost var next, strace, stepped := ScheduleStep();
      passes := Passes(Stage(M, c1, d1), trace, ps, strace, stepped);
      heir := Heirs(phase, O, M, agents, succ, next, c0, c1, d0, d1, drawn);
    }

    /**
     * step: one tick of the model; the model stops running once no agent is
     * Infected after the tick.
     */
    method Step() returns (ghost heir: map<Agent, Agent>, ghost passes: Passes)
      requires Valid() && OraclesSound()
      modifies this`agents, this`currentId, this`drawn, this`phase, this`running, this`steps
      ensures Valid()
      ensures phase == NextPhase(old(phase)) && steps == old(steps) + 1
      ensures |agents| == |old(agents)|
      ensures currentId >= old(currentId) && drawn >= old(drawn)
      ensures running == (old(running) && Tally(agents, "Infected") != 0)
      ensures Inherits(phase, old(agents), agents, heir, old(drawn), drawn)
      ensures forall o :: o in heir && o.health.Susceptible? && Exposed(old(agents), o.pos) ==>
                !heir[o].health.Susceptible?
      ensures TickTrace(phase, old(steps), Stage(old(agents), old(currentId), old(drawn)), passes,
                        Stage(agents, currentId, drawn))
    {
      heir, passes := Advance();
      var infected := Count("Infected");
      if infected == 0 {
        running := false;
      }
    }
  }
}
