/** The needs model shared by rabbits and wolves: per-tick growth of hunger,
    thirst and reproductive urge, the priority-ordered choice of a goal, the
    reset of a satisfied need, the death condition, and the roam fallback. */
module Behaviour {
  import opened Occupancy
  import opened Perception

  datatype Needs = Needs(hunger: real, thirst: real, urge: real)

  /** Per-species maxima and per-tick increments. */
  datatype Traits = Traits(maxHunger: real, maxThirst: real, maxUrge: real,
                           hungerDelta: real, thirstDelta: real, urgeDelta: real)

  const RabbitTraits := Traits(100.0, 120.0, 100.0, 0.05, 0.05, 0.05)
  const WolfTraits := Traits(100.0, 80.0, 50.0, 0.05, 0.05, 0.05)

  /** The branches of an update, in priority order. */
  datatype Goal = Food | Water | Mate | Wander

  function Rank(g: Goal): nat {
    match g
    case Food => 0
    case Water => 1
    case Mate => 2
    case Wander => 3
  }

  /** The condition of each branch: the need is above half its maximum and
      its target was seen. Roaming needs no condition. */
  predicate Pressing(n: Needs, s: Traits, seen: Sightings, g: Goal) {
    match g
    case Food => n.hunger > s.maxHunger / 2.0 && seen.food != NoCell
    case Water => n.thirst > s.maxThirst / 2.0 && seen.water != NoCell
    case Mate => n.urge > s.maxUrge / 2.0 && seen.mate != NoCell
    case Wander => true
  }

  /** One tick's growth of all three needs. */
  function Tick(n: Needs, s: Traits): Needs {
    Needs(n.hunger + s.hungerDelta, n.thirst + s.thirstDelta, n.urge + s.urgeDelta)
  }

  /** The if / else-if chain of update: the first branch whose condition
      holds, roaming when none does. */
  function Choose(n: Needs, s: Traits, seen: Sightings): (g: Goal)
    ensures Pressing(n, s, seen, g)
    ensures forall h :: Rank(h) < Rank(g) ==> !Pressing(n, s, seen, h)
  {
    if n.hunger > s.maxHunger / 2.0 && seen.food != NoCell then Food
    else if n.thirst > s.maxThirst / 2.0 && seen.water != NoCell then Water
    else if n.urge > s.maxUrge / 2.0 && seen.mate != NoCell then Mate
    else Wander
  }

  /** The needs after the chosen branch: a branch whose target is within
      reach resets its own need to zero. */
  function Settle(n: Needs, g: Goal, reached: bool): Needs {
    if !reached then n
    else match g
      case Food => n.(hunger := 0.0)
      case Water => n.(thirst := 0.0)
      case Mate => n.(urge := 0.0)
      case Wander => n
  }

  /** The removal condition checked at the end of update. */
  predicate Dies(n: Needs, s: Traits) {
    n.hunger > s.maxHunger || n.thirst > s.maxThirst
  }

  /** The goal cell the branch steers to; `roam` is the outcome of roaming. */
  function Target(seen: Sightings, g: Goal, roam: Cell): Cell {
    match g
    case Food => seen.food
    case Water => seen.water
    case Mate => seen.mate
    case Wander => roam
  }

  /** Animal::roam: once terrain exists and the agent is within distance 5 of
      its roam target, the target is replaced by a freshly drawn land cell
      (`pick`); otherwise it is kept. */
  function RoamTarget(terrainGenerated: bool, pos: Cell, headedTo: Cell, pick: Cell): Cell {
    var dx, dy := headedTo.x - pos.x, headedTo.y - pos.y;
    if terrainGenerated && dx * dx + dy * dy < 25 then pick else headedTo
  }

  /** The decisions of one update, as seen from the state before it. */
  datatype Plan = Plan(seen: Sightings, needs: Needs, goal: Goal, reached: bool) {
    /** The needs at the end of the update. */
    function After(): Needs { Settle(needs, goal, reached) }
    predicate Feeds() { goal == Food && reached }
    predicate Spawns() { goal == Mate && reached }
  }

  /** The whole needs step of one update: exactly one branch is taken, at
      most the need of that branch is reset, every other need has grown by
      exactly its increment, and only a need that was pressing can be reset. */
  lemma {:induction false} NeedsStep(n: Needs, s: Traits, seen: Sightings, reached: bool)
    ensures var m := Tick(n, s);
      var g := Choose(m, s, seen);
      var r := Settle(m, g, reached);
      && ((r.hunger == 0.0 && g == Food && reached) || r.hunger == n.hunger + s.hungerDelta)
      && ((r.thirst == 0.0 && g == Water && reached) || r.thirst == n.thirst + s.thirstDelta)
      && ((r.urge == 0.0 && g == Mate && reached) || r.urge == n.urge + s.urgeDelta)
      && (r.hunger != m.hunger ==> m.hunger > s.maxHunger / 2.0)
      && (r.thirst != m.thirst ==> m.thirst > s.maxThirst / 2.0)
      && (r.urge != m.urge ==> m.urge > s.maxUrge / 2.0)
  {
  }

  /** A need that was just satisfied cannot be the cause of death. */
  lemma SatisfiedNeedIsNotFatal(m: Needs, s: Traits, g: Goal)
    requires s.maxHunger >= 0.0 && s.maxThirst >= 0.0
    requires g == Food || g == Water
    ensures var r := Settle(m, g, true);
      Dies(r, s) <==> (if g == Food then m.thirst > s.maxThirst else m.hunger > s.maxHunger)
  {
  }

  /** The needs after `k` ticks in which nothing is satisfied. */
  function Unfed(n: Needs, s: Traits, k: nat): Needs {
    if k == 0 then n else Tick(Unfed(n, s, k - 1), s)
  }

  /** Absent consumption the needs grow linearly, one increment per tick. */
  lemma {:induction false} UnfedGrowth(n: Needs, s: Traits, k: nat)
    ensures Unfed(n, s, k) == Needs(n.hunger + k as real * s.hungerDelta,
                                    n.thirst + k as real * s.thirstDelta,
                                    n.urge + k as real * s.urgeDelta)
  {
    if k > 0 {
      UnfedGrowth(n, s, k - 1);
    }
  }

  /** A rabbit that never eats dies of hunger within 2001 ticks of a
      non-negative start, whatever else happens. */
  lemma {:induction false} RabbitStarves(n: Needs, k: nat)
    requires n.hunger >= 0.0 && k >= 2001
    ensures Dies(Unfed(n, RabbitTraits, k), RabbitTraits)
  {
    UnfedGrowth(n, RabbitTraits, k);
  }

  /** Roaming keeps a target that is still at distance 5 or more. */
  lemma RoamKeepsFarTarget(terrainGenerated: bool, pos: Cell, headedTo: Cell, pick: Cell)
    requires (headedTo.x - pos.x) * (headedTo.x - pos.x) + (headedTo.y - pos.y) * (headedTo.y - pos.y) >= 25
    ensures RoamTarget(terrainGenerated, pos, headedTo, pick) == headedTo
  {
  }
}
