/**
 * The agents of the SIR simulation (covid/agents.py): a person is a value
 * with an id, a position, the optional commuting anchors of imperial mode and
 * a health state; this module holds the pure parts of the agents' behaviour:
 * construction (People.__init__), set_imperial, the choice of a movement
 * target, and the countdown of an infection.
 */
module Agents {

  datatype Option<+T> = None | Some(value: T)

  /** A point of the continuous plane. */
  datatype Point = Point(x: real, y: real)

  /** The anchors every agent carries in imperial mode. */
  datatype Commute = Commute(home: Point, work: Point, travel: bool)

  /** The three agent classes; `energy` is the remaining infectious time. */
  datatype Health = Susceptible | Infected(asymptomatic: bool, energy: int) | Recovered

  datatype Agent = Agent(id: nat, pos: Point, commute: Option<Commute>, health: Health)

  /** The model's `state` label, read by every agent when it moves. */
  datatype Phase = Home | Work | Community | Diffusion

  /** The `name` attribute that the model's counters compare against. */
  function Name(h: Health): string {
    match h
    case Susceptible => "Susceptible"
    case Infected(_, _) => "Infected"
    case Recovered => "Recovered"
  }

  /** Position of a health state along Susceptible -> Infected -> Recovered. */
  function Rank(h: Health): nat {
    match h
    case Susceptible => 0
    case Infected(_, _) => 1
    case Recovered => 2
  }

  /** Infectious duration given at creation of an Infected agent. */
  function InitialEnergy(asymptomatic: bool): int {
    if asymptomatic then 42 else 15
  }

  /** A uniformly random point `(u1 * width, u2 * height)` of the plane. */
  function RandomPoint(u1: real, u2: real, width: real, height: real): Point {
    Point(u1 * width, u2 * height)
  }

  predicate InPlane(p: Point, width: real, height: real) {
    0.0 <= p.x < width && 0.0 <= p.y < height
  }

  lemma RandomPointInPlane(u1: real, u2: real, width: real, height: real)
    requires 0.0 <= u1 < 1.0 && 0.0 <= u2 < 1.0 && width > 0.0 && height > 0.0
    ensures InPlane(RandomPoint(u1, u2, width, height), width, height)
  {
    assert u1 * width < 1.0 * width;
    assert u2 * height < 1.0 * height;
  }

  /** Whether a fresh agent travels for work: the draw falls in the lowest 10%. */
  function Travels(u: real): (b: bool)
    ensures b <==> u < 0.1
  {
    100.0 * u < 10.0
  }

  /**
   * People.__init__: an agent created at `pos`. In imperial mode its home is
   * `pos`, its work place a random point drawn from `u1`, `u2`, and `u3`
   * decides whether it travels; otherwise it has no anchors.
   */
  function Settle(id: nat, pos: Point, health: Health, imperial: bool, width: real, height: real,
                  u1: real, u2: real, u3: real): (a: Agent)
    ensures a.id == id && a.pos == pos && a.health == health
    ensures a.commute.Some? <==> imperial
    ensures imperial ==> a.commute.value.home == pos && (a.commute.value.travel <==> u3 < 0.1)
  {
    if imperial then
      Agent(id, pos, Some(Commute(pos, RandomPoint(u1, u2, width, height), Travels(u3))), health)
    else
      Agent(id, pos, None, health)
  }

  /** In imperial mode a fresh agent's work place lies in the plane. */
  lemma SettleWorkInPlane(id: nat, pos: Point, health: Health, width: real, height: real,
                          u1: real, u2: real, u3: real)
    requires 0.0 <= u1 < 1.0 && 0.0 <= u2 < 1.0 && width > 0.0 && height > 0.0
    ensures InPlane(Settle(id, pos, health, true, width, height, u1, u2, u3).commute.value.work, width, height)
  {
    RandomPointInPlane(u1, u2, width, height);
  }

  /** set_imperial: the anchors of a predecessor are copied onto `a`. */
  function SetImperial(a: Agent, home: Point, work: Point, travel: bool): (r: Agent)
    ensures r.id == a.id && r.pos == a.pos && r.health == a.health
    ensures r.commute == Some(Commute(home, work, travel))
  {
    a.(commute := Some(Commute(home, work, travel)))
  }

  /**
   * Whether one own step of an agent in health `h` ends its infection:
   * the energy is decremented and reaches 0.
   */
  predicate Recovering(h: Health) {
    h.Infected? && h.energy - 1 == 0
  }

  /**
   * The health an agent has after one of its own steps: an Infected agent
   * loses one unit of energy and is Recovered when it reaches 0; the other
   * two states never change.
   */
  function Tick(h: Health): (r: Health)
    ensures Rank(h) <= Rank(r)
    ensures !h.Infected? ==> r == h
    ensures r.Recovered? && h.Infected? <==> Recovering(h)
    ensures r.Infected? ==> h.Infected? && r.asymptomatic == h.asymptomatic && r.energy == h.energy - 1
  {
    match h
    case Infected(asymptomatic, energy) =>
      if energy - 1 == 0 then Recovered else Infected(asymptomatic, energy - 1)
    case _ => h
  }

  /** The health after `k` own steps. */
  function Ticks(h: Health, k: nat): Health {
    if k == 0 then h else Tick(Ticks(h, k - 1))
  }

  /**
   * An agent infected with energy `e` is still infected, with `e - k` left,
   * after `k < e` of its own steps, and is Recovered from its `e`-th step on.
   */
  lemma {:induction false} CountdownExact(asymptomatic: bool, e: int, k: nat)
    requires e >= 1
    ensures k < e ==> Ticks(Infected(asymptomatic, e), k) == Infected(asymptomatic, e - k)
    ensures k >= e ==> Ticks(Infected(asymptomatic, e), k) == Recovered
  {
    if k > 0 {
      CountdownExact(asymptomatic, e, k - 1);
    }
  }

  /** An asymptomatic infection lasts exactly 42 own steps, a symptomatic one 15. */
  lemma {:induction false} InfectionLasts(asymptomatic: bool, k: nat)
    ensures Ticks(Infected(asymptomatic, InitialEnergy(asymptomatic)), k).Recovered?
            <==> k >= (if asymptomatic then 42 else 15)
    ensures Ticks(Infected(asymptomatic, InitialEnergy(asymptomatic)), k).Infected?
            <==> k < (if asymptomatic then 42 else 15)
  {
    CountdownExact(asymptomatic, InitialEnergy(asymptomatic), k);
  }

  /** Whether a new infection is asymptomatic, given its draw `u` and the percentage. */
  function Asymptomatic(u: real, percentage: real): (b: bool)
    ensures percentage <= 0.0 && u >= 0.0 ==> !b
    ensures percentage >= 100.0 && u < 1.0 ==> b
    ensures b <==> u < percentage / 100.0
  {
    100.0 * u < percentage
  }

  /** `c` moved by the vector `d` scaled by `r`. */
  function Offset(c: Point, d: Point, r: real): Point {
    Point(c.x + d.x * r, c.y + d.y * r)
  }

  /** Squared Euclidean distance. */
  function Dist2(p: Point, q: Point): real {
    (p.x - q.x) * (p.x - q.x) + (p.y - q.y) * (p.y - q.y)
  }

  predicate Unit(d: Point) {
    d.x * d.x + d.y * d.y == 1.0
  }

  /**
   * A step of length `u * m` along a unit vector stays within distance `m`,
   * strictly when `m` is positive; with `m == 0` it stays at `c`.
   */
  lemma OffsetWithin(c: Point, d: Point, u: real, m: real)
    requires Unit(d) && 0.0 <= u < 1.0 && m >= 0.0
    ensures Dist2(Offset(c, d, u * m), c) <= m * m
    ensures m > 0.0 ==> Dist2(Offset(c, d, u * m), c) < m * m
    ensures m == 0.0 ==> Offset(c, d, u * m) == c
  {
    var r := u * m;
    assert Dist2(Offset(c, d, r), c) == (d.x * d.x + d.y * d.y) * (r * r);
    if m > 0.0 {
      ScaledBelow(u, m);
      SquareBelow(r, m);
    }
  }

  lemma ScaledBelow(u: real, m: real)
    requires 0.0 <= u < 1.0 && m > 0.0
    ensures 0.0 <= u * m < m
  {
    assert u * m < 1.0 * m;
  }

  lemma SquareBelow(r: real, m: real)
    requires 0.0 <= r < m
    ensures r * r < m * m
  {
    var a, b, c := r * r, r * m, m * m;
    assert a <= b;
    assert b < c;
  }

  /**
   * People.step's choice of target. In imperial mode: anywhere in the plane
   * in the community phase or for a travelling agent in the work phase, near
   * the work anchor in the work phase, near home otherwise. Without imperial
   * mode: near the current position. `u1` and `u2` are the two draws a step
   * consumes (the coordinates, or the angle and the distance) and `heading`
   * gives the direction vector of an angle.
   */
  function Target(phase: Phase, imperial: bool, a: Agent, mobility: real, width: real, height: real,
                  heading: real -> Point, u1: real, u2: real): Point
    requires imperial ==> a.commute.Some?
  {
    if imperial then
      if phase == Community || (phase == Work && a.commute.value.travel) then
        RandomPoint(u1, u2, width, height)
      else if phase == Work then
        Offset(a.commute.value.work, heading(360.0 * u1), u2 * mobility)
      else
        Offset(a.commute.value.home, heading(360.0 * u1), u2 * mobility)
    else
      Offset(a.pos, heading(360.0 * u1), u2 * mobility)
  }

  /**
   * `t` lies within distance `m` of `c`: strictly when `m` is positive, and at
   * `c` itself when `m` is zero.
   */
  predicate Within(t: Point, c: Point, m: real) {
    && Dist2(t, c) <= m * m
    && (m > 0.0 ==> Dist2(t, c) < m * m)
    && (m == 0.0 ==> t == c)
  }

  /** Where each branch of the movement rule can put an agent. */
  lemma TargetBounds(phase: Phase, imperial: bool, a: Agent, mobility: real, width: real, height: real,
                     heading: real -> Point, u1: real, u2: real)
    requires imperial ==> a.commute.Some?
    requires 0.0 <= u1 < 1.0 && 0.0 <= u2 < 1.0
    requires Unit(heading(360.0 * u1)) && mobility >= 0.0 && width > 0.0 && height > 0.0
    ensures var t := Target(phase, imperial, a, mobility, width, height, heading, u1, u2);
      && (imperial && (phase == Community || (phase == Work && a.commute.value.travel)) ==>
            InPlane(t, width, height))
      && (imperial && phase == Work && !a.commute.value.travel ==>
            Within(t, a.commute.value.work, mobility))
      && (imperial && phase != Work && phase != Community ==>
            Within(t, a.commute.value.home, mobility))
      && (!imperial ==> Within(t, a.pos, mobility))
  {
    var d := heading(360.0 * u1);
    if imperial {
      if phase == Community || (phase == Work && a.commute.value.travel) {
        RandomPointInPlane(u1, u2, width, height);
      } else if phase == Work {
        OffsetWithin(a.commute.value.work, d, u2, mobility);
      } else {
        OffsetWithin(a.commute.value.home, d, u2, mobility);
      }
    } else {
      OffsetWithin(a.pos, d, u2, mobility);
    }
  }

  /** Without imperial mode the target depends only on the position and the draws. */
  lemma DiffusionIgnoresPhase(p: Phase, q: Phase, a: Agent, b: Agent, mobility: real, width: real,
                              height: real, heading: real -> Point, u1: real, u2: real)
    requires a.pos == b.pos
    ensures Target(p, false, a, mobility, width, height, heading, u1, u2)
         == Target(q, false, b, mobility, width, height, heading, u1, u2)
  {
  }
}
