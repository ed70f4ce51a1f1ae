/** The simulated world: the terrain, the three populations (rabbits,
    wolves, plants) with their add / remove operations, the per-agent
    update of rabbits and wolves, and the per-frame update sweep.

    Positions are integer cells. The geometry of one movement step is the
    world's `step` function (position, goal) -> next cell, and the cells a
    species' sweep visits are the world's fixed offset lists `rabbitSweep`
    and `wolfSweep`. The random draws of an update arrive as a `Draw`. */
module Ecosystem {
  import opened Seqs
  import opened Occupancy
  import opened Perception
  import opened Behaviour

  /** The sampled inputs of one agent update: the land cell the roaming
      sampler settles on, and the starting needs of a newborn. */
  datatype Draw = Draw(roamTarget: Cell, newborn: Needs)

  /** A plant never moves: it is just its position. */
  datatype Plant = Plant(position: Cell)

  function PlantCells(ps: seq<Plant>): (cells: seq<Cell>)
    ensures |cells| == |ps| && forall i :: 0 <= i < |ps| ==> cells[i] == ps[i].position
  {
    seq(|ps|, i requires 0 <= i < |ps| => ps[i].position)
  }

  /** The cells of a population, in list order. */
  function RabbitCells(rs: seq<Rabbit>): (cells: seq<Cell>)
    reads rs`position
    ensures |cells| == |rs|
  {
    if rs == [] then [] else RabbitCells(rs[..|rs| - 1]) + [rs[|rs| - 1].position]
  }

  lemma {:induction false} RabbitCellsAt(rs: seq<Rabbit>, i: int)
    requires 0 <= i < |rs|
    ensures RabbitCells(rs)[i] == rs[i].position
  {
    if i < |rs| - 1 {
      RabbitCellsAt(rs[..|rs| - 1], i);
    }
  }

  lemma {:induction false} RabbitCellsAppend(rs: seq<Rabbit>, r: Rabbit)
    ensures RabbitCells(rs + [r]) == RabbitCells(rs) + [r.position]
  {
    assert (rs + [r])[..|rs|] == rs;
  }

  lemma {:induction false} RabbitCellsErase(rs: seq<Rabbit>, k: int)
    requires 0 <= k < |rs|
    ensures RabbitCells(rs[..k] + rs[k + 1..]) == RabbitCells(rs)[..k] + RabbitCells(rs)[k + 1..]
  {
    var r := rs[..k] + rs[k + 1..];
    forall i | 0 <= i < |r|
      ensures RabbitCells(r)[i] == (RabbitCells(rs)[..k] + RabbitCells(rs)[k + 1..])[i]
    {
      RabbitCellsAt(r, i);
      if i < k {
        RabbitCellsAt(rs, i);
      } else {
        RabbitCellsAt(rs, i + 1);
      }
    }
  }

  /** Erasing the first rabbit found on `pos` erases the first
      occurrence of `pos` from the cells, and nothing else. */
  lemma RabbitCellsRemoved(rs: seq<Rabbit>, pos: Cell)
    ensures RabbitCells(EraseAt(rs, FirstIndex(RabbitCells(rs), pos))) == RemoveFirst(RabbitCells(rs), pos)
  {
    var k := FirstIndex(RabbitCells(rs), pos);
    if k >= 0 {
      RabbitCellsErase(rs, k);
    }
  }

  /** The cells depend on the positions only. */
  twostate lemma {:induction false} RabbitCellsFrame(rs: seq<Rabbit>)
    requires forall i :: 0 <= i < |rs| ==> old(rs[i].position) == rs[i].position
    ensures old(RabbitCells(rs)) == RabbitCells(rs)
  {
    if rs != [] {
      RabbitCellsFrame(rs[..|rs| - 1]);
    }
  }

  /** The cells of a population, in list order. */
  function WolfCells(ws: seq<Wolf>): (cells: seq<Cell>)
    reads ws`position
    ensures |cells| == |ws|
  {
    if ws == [] then [] else WolfCells(ws[..|ws| - 1]) + [ws[|ws| - 1].position]
  }

  lemma {:induction false} WolfCellsAt(ws: seq<Wolf>, i: int)
    requires 0 <= i < |ws|
    ensures WolfCells(ws)[i] == ws[i].position
  {
    if i < |ws| - 1 {
      WolfCellsAt(ws[..|ws| - 1], i);
    }
  }

  lemma {:induction false} WolfCellsAppend(ws: seq<Wolf>, v: Wolf)
    ensures WolfCells(ws + [v]) == WolfCells(ws) + [v.position]
  {
    assert (ws + [v])[..|ws|] == ws;
  }

  lemma {:induction false} WolfCellsErase(ws: seq<Wolf>, k: int)
    requires 0 <= k < |ws|
    ensures WolfCells(ws[..k] + ws[k + 1..]) == WolfCells(ws)[..k] + WolfCells(ws)[k + 1..]
  {
    var r := ws[..k] + ws[k + 1..];
    forall i | 0 <= i < |r|
      ensures WolfCells(r)[i] == (WolfCells(ws)[..k] + WolfCells(ws)[k + 1..])[i]
    {
      WolfCellsAt(r, i);
      if i < k {
        WolfCellsAt(ws, i);
      } else {
        WolfCellsAt(ws, i + 1);
      }
    }
  }

  /** Erasing the first wolf found on `pos` erases the first
      occurrence of `pos` from the cells, and nothing else. */
  lemma WolfCellsRemoved(ws: seq<Wolf>, pos: Cell)
    ensures WolfCells(EraseAt(ws, FirstIndex(WolfCells(ws), pos))) == RemoveFirst(WolfCells(ws), pos)
  {
    var k := FirstIndex(WolfCells(ws), pos);
    if k >= 0 {
      WolfCellsErase(ws, k);
    }
  }

  /** The cells depend on the positions only. */
  twostate lemma {:induction false} WolfCellsFrame(ws: seq<Wolf>)
    requires forall i :: 0 <= i < |ws| ==> old(ws[i].position) == ws[i].position
    ensures old(WolfCells(ws)) == WolfCells(ws)
  {
    if ws != [] {
      WolfCellsFrame(ws[..|ws| - 1]);
    }
  }

  /** The tag generateTerrain writes for a noise value: land above 0.4, water otherwise. */
  function TerrainTag(noise: real): Tag {
    if noise > 0.4 then LandTag else WaterTag
  }

  class World {
    const blueprint: Blueprint
    /** The terrain image reduced to one bit per pixel: painted as land or not. */
    const land: array2<bool>
    const step: (Cell, Cell) -> Cell
    const rabbitSweep: seq<Cell>
    const wolfSweep: seq<Cell>
    var terrainGenerated: bool
    var rabbits: seq<Rabbit>
    var wolves: seq<Wolf>
    var plants: seq<Plant>

    ghost predicate Valid()
      reads blueprint, blueprint.cells
    {
      blueprint.Valid() && land.Length0 == blueprint.width && land.Length1 == blueprint.height
    }

    ghost function Tagged(g: Grid, t: Tag, c: Cell): (r: Grid)
      requires Shaped(g, blueprint.width, blueprint.height)
      ensures Shaped(r, blueprint.width, blueprint.height)
    {
      Put(g, blueprint.width, blueprint.height, t, c.x, c.y)
    }

    ghost function Untagged(g: Grid, t: Tag, c: Cell): (r: Grid)
      requires Shaped(g, blueprint.width, blueprint.height)
      ensures Shaped(r, blueprint.width, blueprint.height)
    {
      Take(g, blueprint.width, blueprint.height, t, c.x, c.y)
    }

    /** A fresh world of the given size: empty blueprint, no terrain, no agents. */
    constructor (width: nat, height: nat, step: (Cell, Cell) -> Cell, rabbitSweep: seq<Cell>, wolfSweep: seq<Cell>)
      ensures Valid() && fresh(blueprint) && fresh(blueprint.cells) && fresh(land)
      ensures blueprint.width == width && blueprint.height == height
      ensures blueprint.grid == EmptyGrid(width, height)
      ensures this.step == step && this.rabbitSweep == rabbitSweep && this.wolfSweep == wolfSweep
      ensures !terrainGenerated && rabbits == [] && wolves == [] && plants == []
    {
      blueprint := new Blueprint(width, height);
      land := new bool[width, height]((x, y) => false);
      this.step, this.rabbitSweep, this.wolfSweep := step, rabbitSweep, wolfSweep;
      terrainGenerated := false;
      rabbits, wolves, plants := [], [], [];
    }

    /** isLand: the cell is in bounds and was painted as land. */
    function IsLand(x: int, y: int): (b: bool)
      reads land, blueprint, blueprint.cells
      requires Valid()
      ensures b ==> InBounds(blueprint.width, blueprint.height, x, y)
    {
      InBounds(blueprint.width, blueprint.height, x, y) && land[x, y]
    }

    /** generateTerrain: every pixel is painted land when its noise exceeds
        0.4 and water otherwise, and every in-bounds cell gets one terrain tag
        appended to its list. */
    method GenerateTerrain(noise: (int, int) -> real)
      requires Valid()
      modifies this, land, blueprint, blueprint.cells
      ensures Valid() && terrainGenerated
      ensures rabbits == old(rabbits) && wolves == old(wolves) && plants == old(plants)
      ensures forall x, y :: 0 <= x < land.Length0 && 0 <= y < land.Length1 ==> land[x, y] == (noise(x, y) > 0.4)
      ensures forall x, y :: 0 <= x < blueprint.width && 0 <= y < blueprint.height ==>
        blueprint.grid[x][y] == if InBounds(blueprint.width, blueprint.height, x, y)
                                then old(blueprint.grid)[x][y] + [TerrainTag(noise(x, y))]
                                else old(blueprint.grid)[x][y]
      ensures (forall x, y :: InBounds(blueprint.width, blueprint.height, x, y) ==> LandTag !in old(blueprint.grid)[x][y])
        ==> forall x, y :: IsLand(x, y) <==> blueprint.Check(LandTag, x, y)
    {
      var i := 0;
      while i < land.Length0
        modifies land, blueprint, blueprint.cells
        invariant 0 <= i <= land.Length0
        invariant Valid()
        invariant forall x, y :: 0 <= x < i && 0 <= y < land.Length1 ==> land[x, y] == (noise(x, y) > 0.4)
        invariant forall x, y :: 0 <= x < blueprint.width && 0 <= y < blueprint.height ==>
          blueprint.grid[x][y] == if x < i && InBounds(blueprint.width, blueprint.height, x, y)
                                  then old(blueprint.grid)[x][y] + [TerrainTag(noise(x, y))] else old(blueprint.grid)[x][y]
      {
        PaintColumn(noise, i);
        i := i + 1;
      }
      terrainGenerated := true;
    }

    /** The inner loop of generateTerrain: column `i` is painted and tagged
        from top to bottom; the other columns are left as they are. */
    method PaintColumn(noise: (int, int) -> real, i: int)
      requires Valid() && 0 <= i < land.Length0
      modifies land, blueprint, blueprint.cells
      ensures Valid()
      ensures forall x, y :: 0 <= x < land.Length0 && 0 <= y < land.Length1 ==>
        land[x, y] == if x == i then noise(x, y) > 0.4 else old(land[x, y])
      ensures forall x, y :: 0 <= x < blueprint.width && 0 <= y < blueprint.height ==>
        blueprint.grid[x][y] == if x == i && InBounds(blueprint.width, blueprint.height, x, y)
                                then old(blueprint.grid)[x][y] + [TerrainTag(noise(x, y))] else old(blueprint.grid)[x][y]
    {
      var j := 0;
      while j < land.Length1
        modifies land, blueprint, blueprint.cells
        invariant 0 <= j <= land.Length1
        invariant Valid()
        invariant forall x, y :: 0 <= x < land.Length0 && 0 <= y < land.Length1 ==>
          land[x, y] == if x == i && y < j then noise(x, y) > 0.4 else old(land[x, y])
        invariant forall x, y :: 0 <= x < blueprint.width && 0 <= y < blueprint.height ==>
          blueprint.grid[x][y] == if x == i && y < j && InBounds(blueprint.width, blueprint.height, x, y)
                                  then old(blueprint.grid)[x][y] + [TerrainTag(noise(x, y))] else old(blueprint.grid)[x][y]
      {
        if noise(i, j) > 0.4 {
          land[i, j] := true;
          blueprint.Add(LandTag, i, j);
        } else {
          land[i, j] := false;
          blueprint.Add(WaterTag, i, j);
        }
        j := j + 1;
      }
    }

    // -------------------------------------------------------------------------
    // Rabbits

    /** addRabbit: a new rabbit on `pos` (needs drawn as `born`), its tag
        added there, the rabbit appended to the population. */
    method AddRabbit(pos: Cell, born: Needs) returns (ghost baby: Rabbit)
      requires Valid()
      modifies this, blueprint, blueprint.cells
      ensures Valid()
      ensures fresh(baby) && baby.position == pos && baby.headedTo == pos
      ensures baby.Levels() == born && baby.Seen() == Unseen
      ensures rabbits == old(rabbits) + [baby]
      ensures RabbitCells(rabbits) == old(RabbitCells(rabbits)) + [pos]
      ensures blueprint.grid == Tagged(old(blueprint.grid), RabbitTag, pos)
      ensures wolves == old(wolves) && plants == old(plants) && terrainGenerated == old(terrainGenerated)
      ensures old(Consistent(blueprint.grid, blueprint.width, blueprint.height, RabbitTag, RabbitCells(rabbits)))
        ==> Consistent(blueprint.grid, blueprint.width, blueprint.height, RabbitTag, RabbitCells(rabbits))
    {
      var rabbit := new Rabbit(pos, born);
      blueprint.Add(RabbitTag, pos.x, pos.y);
      rabbits := rabbits + [rabbit];
      baby := rabbit;
      ghost var cells := old(RabbitCells(rabbits));
      RabbitCellsAppend(old(rabbits), rabbit);
      if old(Consistent(blueprint.grid, blueprint.width, blueprint.height, RabbitTag, RabbitCells(rabbits))) {
        PutKeepsConsistent(old(blueprint.grid), blueprint.width, blueprint.height, RabbitTag, cells, pos);
      }
    }

    /** removeRabbit: the first rabbit standing on `pos` leaves the
        population and one rabbit tag leaves its cell; nothing happens when
        no rabbit stands there. */
    method RemoveRabbit(pos: Cell)
      requires Valid()
      modifies this, blueprint, blueprint.cells
      ensures Valid()
      ensures rabbits == EraseAt(old(rabbits), FirstIndex(old(RabbitCells(rabbits)), pos))
      ensures blueprint.grid == if pos in old(RabbitCells(rabbits)) then Untagged(old(blueprint.grid), RabbitTag, pos)
                                else old(blueprint.grid)
      ensures wolves == old(wolves) && plants == old(plants) && terrainGenerated == old(terrainGenerated)
    {
      var targetAt := FindRabbit(pos);
      FirstIndexMeans(RabbitCells(rabbits), pos);
      if 0 <= targetAt <= |rabbits| {
        var at := rabbits[targetAt].position;
        RabbitCellsAt(rabbits, targetAt);
        blueprint.Remove(RabbitTag, at.x, at.y);
        rabbits := rabbits[..targetAt] + rabbits[targetAt + 1..];
      }
    }

    /** The search loop of removeRabbit: the index of the first rabbit whose
        cell is `pos`, or -1. */
    method FindRabbit(pos: Cell) returns (targetAt: int)
      ensures targetAt == FirstIndex(RabbitCells(rabbits), pos)
    {
      ghost var cells := RabbitCells(rabbits);
      targetAt := -1;
      var i := 0;
      while i < |rabbits|
        invariant 0 <= i <= |rabbits|
        invariant pos !in cells[..i]
      {
        RabbitCellsAt(rabbits, i);
        if rabbits[i].position == pos {
          targetAt := i;
          FirstIndexIs(cells, pos, i);
          return;
        }
        i := i + 1;
      }
      assert cells[..i] == cells;
      FirstIndexMeans(cells, pos);
    }

    /** One visit of updateAllRabbits: the rabbit at index `i` runs its
        update, with the whole effect `Rabbit.Update` gives, on the world's
        own list. When that rabbit dies, the removal erases an index at or
        before `i`: the rabbit after the cursor slides into the slot just
        visited and its successor into the next one, so the next visit
        passes over it. */
    method UpdateRabbit(i: nat, d: Draw) returns (ghost born: seq<Rabbit>)
      requires Valid() && i < |rabbits|
      modifies this, blueprint, blueprint.cells, rabbits[i]
      ensures Valid()
      ensures |born| == (if old(rabbits[i].Decide(this)).Spawns() then 1 else 0)
      ensures forall b :: b in born ==> fresh(b) && b.position == b.headedTo == old(rabbits[i].position)
      ensures forall b :: b in born ==> b.Levels() == d.newborn && b.Seen() == Unseen
      ensures var p, pos := old(rabbits[i].Decide(this)), old(rabbits[i].position);
        var cells := old(RabbitCells(rabbits)) + (if p.Spawns() then [pos] else []);
        rabbits == if Dies(p.After(), RabbitTraits) then EraseAt(old(rabbits) + born, FirstIndex(cells, pos))
                   else old(rabbits) + born
      ensures var p, pos, r := old(rabbits[i].Decide(this)), old(rabbits[i].position), old(rabbits[i]);
        var cells := old(RabbitCells(rabbits)) + (if p.Spawns() then [pos] else []);
        var g1 := if p.Spawns() then Tagged(old(blueprint.grid), RabbitTag, pos) else old(blueprint.grid);
        var g2 := if Dies(p.After(), RabbitTraits) && pos in cells then Untagged(g1, RabbitTag, pos) else g1;
        blueprint.grid == Tagged(Untagged(g2, RabbitTag, pos), RabbitTag, r.position)
      ensures Dies(old(rabbits[i].Decide(this)).After(), RabbitTraits) ==>
        && |rabbits| == |old(rabbits)| + |born| - 1
        && (i + 1 < |old(rabbits)| ==> rabbits[i] == old(rabbits)[i + 1])
        && (i + 2 < |old(rabbits)| ==> rabbits[i + 1] == old(rabbits)[i + 2])
      ensures var r, p := old(rabbits[i]), old(rabbits[i].Decide(this));
        && r.Seen() == p.seen && r.Levels() == p.After()
        && r.headedTo == Target(p.seen, p.goal, RoamTarget(old(terrainGenerated), old(r.position), old(r.headedTo), d.roamTarget))
        && r.position == step(old(r.position), r.headedTo)
      ensures forall x :: x in rabbits ==> x in old(rabbits) || fresh(x)
      ensures wolves == old(wolves) && plants == old(plants) && terrainGenerated == old(terrainGenerated)
    {
      ghost var before, cells0 := rabbits, RabbitCells(rabbits);
      var r := rabbits[i];
      RabbitCellsAt(rabbits, i);
      born := r.Update(this, d);
      ghost var all := before + born;
      ghost var cells := cells0 + (if |born| == 1 then [old(r.position)] else []);
      assert forall x :: x in all ==> x in before || fresh(x);
      assert forall x :: x in rabbits ==> x in all by {
        EraseAtWithin(all);
      }
      assert cells[i] == old(r.position);
      EraseFirstAtCursor(all, cells, i);
    }

    /** updateAllRabbits: walk the population by index, updating the rabbit
        at each index, until the index passes the end of the list as it is
        then (or the step budget is spent). */
    method UpdateAllRabbits(draws: nat -> Draw, budget: nat) returns (visits: nat)
      requires Valid()
      modifies this, blueprint, blueprint.cells, rabbits
      ensures Valid()
      ensures visits <= budget && (visits < budget ==> visits >= |rabbits|)
      ensures forall r :: r in rabbits ==> r in old(rabbits) || fresh(r)
      ensures wolves == old(wolves) && plants == old(plants) && terrainGenerated == old(terrainGenerated)
    {
      visits := 0;
      while visits < |rabbits| && visits < budget
        decreases budget - visits
        invariant Valid()
        invariant visits <= budget
        invariant forall r :: r in rabbits ==> r in old(rabbits) || fresh(r)
        invariant wolves == old(wolves) && plants == old(plants) && terrainGenerated == old(terrainGenerated)
      {
        assert rabbits[visits] in rabbits;
        var born := UpdateRabbit(visits, draws(visits));
        visits := visits + 1;
      }
    }

    // -------------------------------------------------------------------------
    // Wolves

    /** addWolf: as addRabbit, for wolves. */
    method AddWolf(pos: Cell, born: Needs) returns (ghost pup: Wolf)
      requires Valid()
      modifies this, blueprint, blueprint.cells
      ensures Valid()
      ensures fresh(pup) && pup.position == pos && pup.headedTo == pos
      ensures pup.Levels() == born && pup.Seen() == Unseen
      ensures wolves == old(wolves) + [pup]
      ensures WolfCells(wolves) == old(WolfCells(wolves)) + [pos]
      ensures blueprint.grid == Tagged(old(blueprint.grid), WolfTag, pos)
      ensures rabbits == old(rabbits) && plants == old(plants) && terrainGenerated == old(terrainGenerated)
      ensures old(Consistent(blueprint.grid, blueprint.width, blueprint.height, WolfTag, WolfCells(wolves)))
        ==> Consistent(blueprint.grid, blueprint.width, blueprint.height, WolfTag, WolfCells(wolves))
    {
      var wolf := new Wolf(pos, born);
      blueprint.Add(WolfTag, pos.x, pos.y);
      wolves := wolves + [wolf];
      pup := wolf;
      ghost var cells := old(WolfCells(wolves));
      WolfCellsAppend(old(wolves), wolf);
      if old(Consistent(blueprint.grid, blueprint.width, blueprint.height, WolfTag, WolfCells(wolves))) {
        PutKeepsConsistent(old(blueprint.grid), blueprint.width, blueprint.height, WolfTag, cells, pos);
      }
    }

    /** removeWolf: the first wolf standing exactly on `pos` leaves, with one
        wolf tag of its cell. */
    method RemoveWolf(pos: Cell)
      requires Valid()
      modifies this, blueprint, blueprint.cells
      ensures Valid()
      ensures wolves == EraseAt(old(wolves), FirstIndex(old(WolfCells(wolves)), pos))
      ensures blueprint.grid == if pos in old(WolfCells(wolves)) then Untagged(old(blueprint.grid), WolfTag, pos)
                                else old(blueprint.grid)
      ensures rabbits == old(rabbits) && plants == old(plants) && terrainGenerated == old(terrainGenerated)
    {
      var targetAt := FindWolf(pos);
      FirstIndexMeans(WolfCells(wolves), pos);
      if 0 <= targetAt <= |wolves| {
        var at := wolves[targetAt].position;
        WolfCellsAt(wolves, targetAt);
        blueprint.Remove(WolfTag, at.x, at.y);
        wolves := wolves[..targetAt] + wolves[targetAt + 1..];
      }
    }

    /** The search loop of removeWolf: the index of the first wolf whose
        cell is `pos`, or -1. */
    method FindWolf(pos: Cell) returns (targetAt: int)
      ensures targetAt == FirstIndex(WolfCells(wolves), pos)
    {
      ghost var cells := WolfCells(wolves);
      targetAt := -1;
      var i := 0;
      while i < |wolves|
        invariant 0 <= i <= |wolves|
        invariant pos !in cells[..i]
      {
        WolfCellsAt(wolves, i);
        if wolves[i].position == pos {
          targetAt := i;
          FirstIndexIs(cells, pos, i);
          return;
        }
        i := i + 1;
      }
      assert cells[..i] == cells;
      FirstIndexMeans(cells, pos);
    }

    /** One visit of updateAllWolves: the wolf at index `i` runs its update,
        with the whole effect `Wolf.Update` gives, on the world's own lists.
        As for rabbits, a dying wolf's removal erases an index at or before
        `i`, so the wolf after the cursor is passed over. */
    method UpdateWolf(i: nat, d: Draw) returns (ghost born: seq<Wolf>)
      requires Valid() && i < |wolves|
      modifies this, blueprint, blueprint.cells, wolves[i]
      ensures Valid()
      ensures |born| == (if old(wolves[i].Decide(this)).Spawns() then 1 else 0)
      ensures forall b :: b in born ==> fresh(b) && b.position == b.headedTo == old(wolves[i].position)
      ensures forall b :: b in born ==> b.Levels() == d.newborn && b.Seen() == Unseen
      ensures rabbits == if old(wolves[i].Decide(this)).Feeds()
                         then EraseAt(old(rabbits), FirstIndex(old(RabbitCells(rabbits)), old(wolves[i].position)))
                         else old(rabbits)
      ensures var p, pos := old(wolves[i].Decide(this)), old(wolves[i].position);
        var cells := old(WolfCells(wolves)) + (if p.Spawns() then [pos] else []);
        wolves == if Dies(p.After(), WolfTraits) then EraseAt(old(wolves) + born, FirstIndex(cells, pos))
                  else old(wolves) + born
      ensures var p, pos, v := old(wolves[i].Decide(this)), old(wolves[i].position), old(wolves[i]);
        var cells := old(WolfCells(wolves)) + (if p.Spawns() then [pos] else []);
        var g0 := if p.Feeds() && pos in old(RabbitCells(rabbits))
                  then Untagged(old(blueprint.grid), RabbitTag, pos) else old(blueprint.grid);
        var g1 := if p.Spawns() then Tagged(g0, WolfTag, pos) else g0;
        var g2 := if Dies(p.After(), WolfTraits) && pos in cells then Untagged(g1, WolfTag, pos) else g1;
        blueprint.grid == Tagged(Untagged(g2, WolfTag, pos), WolfTag, v.position)
      ensures Dies(old(wolves[i].Decide(this)).After(), WolfTraits) ==>
        && |wolves| == |old(wolves)| + |born| - 1
        && (i + 1 < |old(wolves)| ==> wolves[i] == old(wolves)[i + 1])
        && (i + 2 < |old(wolves)| ==> wolves[i + 1] == old(wolves)[i + 2])
      ensures var v, p := old(wolves[i]), old(wolves[i].Decide(this));
        && v.Seen() == p.seen && v.Levels() == p.After()
        && v.headedTo == Target(p.seen, p.goal, RoamTarget(old(terrainGenerated), old(v.position), old(v.headedTo), d.roamTarget))
        && v.position == step(old(v.position), v.headedTo)
      ensures forall x :: x in wolves ==> x in old(wolves) || fresh(x)
      ensures forall r :: r in rabbits ==> r in old(rabbits)
      ensures plants == old(plants) && terrainGenerated == old(terrainGenerated)
    {
      ghost var before, prey, cells0 := wolves, rabbits, WolfCells(wolves);
      var v := wolves[i];
      WolfCellsAt(wolves, i);
      born := v.Update(this, d);
      ghost var all := before + born;
      ghost var cells := cells0 + (if |born| == 1 then [old(v.position)] else []);
      assert forall x :: x in all ==> x in before || fresh(x);
      assert forall x :: x in wolves ==> x in all by {
        EraseAtWithin(all);
      }
      assert forall x :: x in rabbits ==> x in prey by {
        EraseAtWithin(prey);
      }
      assert cells[i] == old(v.position);
      EraseFirstAtCursor(all, cells, i);
    }

    /** updateAllWolves: as updateAllRabbits, for wolves. */
    method UpdateAllWolves(draws: nat -> Draw, budget: nat) returns (visits: nat)
      requires Valid()
      modifies this, blueprint, blueprint.cells, wolves
      ensures Valid()
      ensures visits <= budget && (visits < budget ==> visits >= |wolves|)
      ensures forall v :: v in wolves ==> v in old(wolves) || fresh(v)
      ensures forall r :: r in rabbits ==> r in old(rabbits)
      ensures plants == old(plants) && terrainGenerated == old(terrainGenerated)
    {
      visits := 0;
      while visits < |wolves| && visits < budget
        decreases budget - visits
        invariant Valid()
        invariant visits <= budget
        invariant forall v :: v in wolves ==> v in old(wolves) || fresh(v)
        invariant forall r :: r in rabbits ==> r in old(rabbits)
        invariant plants == old(plants) && terrainGenerated == old(terrainGenerated)
      {
        assert wolves[visits] in wolves;
        var born := UpdateWolf(visits, draws(visits));
        visits := visits + 1;
      }
    }

    // -------------------------------------------------------------------------
    // Plants

    /** addPlant: a plant on `pos`, its tag added there. */
    method AddPlant(pos: Cell)
      requires Valid()
      modifies this, blueprint, blueprint.cells
      ensures Valid()
      ensures plants == old(plants) + [Plant(pos)]
      ensures blueprint.grid == Tagged(old(blueprint.grid), PlantTag, pos)
      ensures rabbits == old(rabbits) && wolves == old(wolves) && terrainGenerated == old(terrainGenerated)
      ensures old(Consistent(blueprint.grid, blueprint.width, blueprint.height, PlantTag, PlantCells(plants)))
        ==> Consistent(blueprint.grid, blueprint.width, blueprint.height, PlantTag, PlantCells(plants))
    {
      blueprint.Add(PlantTag, pos.x, pos.y);
      plants := plants + [Plant(pos)];
      assert PlantCells(plants) == old(PlantCells(plants)) + [pos];
      if old(Consistent(blueprint.grid, blueprint.width, blueprint.height, PlantTag, PlantCells(plants))) {
        PutKeepsConsistent(old(blueprint.grid), blueprint.width, blueprint.height, PlantTag, old(PlantCells(plants)), pos);
      }
    }

    /** removePlant: the first plant exactly on `pos` is erased from the
        list, then one plant tag of `pos` is removed; nothing happens when no
        plant stands there. */
    method RemovePlant(pos: Cell)
      requires Valid()
      modifies this, blueprint, blueprint.cells
      ensures Valid()
      ensures plants == RemoveFirst(old(plants), Plant(pos))
      ensures blueprint.grid == if Plant(pos) in old(plants) then Untagged(old(blueprint.grid), PlantTag, pos)
                                else old(blueprint.grid)
      ensures rabbits == old(rabbits) && wolves == old(wolves) && terrainGenerated == old(terrainGenerated)
      ensures old(Consistent(blueprint.grid, blueprint.width, blueprint.height, PlantTag, PlantCells(plants)))
        ==> Consistent(blueprint.grid, blueprint.width, blueprint.height, PlantTag, PlantCells(plants))
    {
      var targetAt := FindPlant(pos);
      FirstIndexMeans(plants, Plant(pos));
      if 0 <= targetAt <= |plants| {
        ghost var cells := PlantCells(plants);
        FirstIndexIs(cells, pos, targetAt);
        plants := plants[..targetAt] + plants[targetAt + 1..];
        blueprint.Remove(PlantTag, pos.x, pos.y);
        assert PlantCells(plants) == cells[..targetAt] + cells[targetAt + 1..];
        if old(Consistent(blueprint.grid, blueprint.width, blueprint.height, PlantTag, PlantCells(plants))) {
          TakeKeepsConsistent(old(blueprint.grid), blueprint.width, blueprint.height, PlantTag, cells, pos);
        }
      }
    }

    /** The search loop of removePlant: the index of the first plant on
        `pos`, or -1. */
    method FindPlant(pos: Cell) returns (targetAt: int)
      ensures targetAt == FirstIndex(plants, Plant(pos))
    {
      targetAt := -1;
      var i := 0;
      while i < |plants|
        invariant 0 <= i <= |plants|
        invariant Plant(pos) !in plants[..i]
      {
        if plants[i].position == pos {
          targetAt := i;
          FirstIndexIs(plants, Plant(pos), i);
          return;
        }
        i := i + 1;
      }
      assert plants[..i] == plants;
      FirstIndexMeans(plants, Plant(pos));
    }

    // -------------------------------------------------------------------------

    /** masterUpdate: all rabbits, then all wolves; the population sizes
        it reports are returned. Plants and terrain are never touched. */
    method MasterUpdate(rabbitDraws: nat -> Draw, wolfDraws: nat -> Draw, budget: nat)
      returns (rabbitsAlive: nat, wolvesAlive: nat)
      requires Valid()
      modifies this, blueprint, blueprint.cells, rabbits, wolves
      ensures Valid()
      ensures rabbitsAlive == |rabbits| && wolvesAlive == |wolves|
      ensures forall r :: r in rabbits ==> r in old(rabbits) || fresh(r)
      ensures forall v :: v in wolves ==> v in old(wolves) || fresh(v)
      ensures plants == old(plants) && terrainGenerated == old(terrainGenerated)
    {
      var r := UpdateAllRabbits(rabbitDraws, budget);
      var v := UpdateAllWolves(wolfDraws, budget);
      rabbitsAlive, wolvesAlive := |rabbits|, |wolves|;
    }
  }

  // ---------------------------------------------------------------------------
  // Agents

  /** The two animal species: they differ in their constants, in what they
      eat, and in the tag they leave on the blueprint. */
  datatype Species = Rabbits | Wolves {
    function Limits(): Traits {
      if this == Rabbits then RabbitTraits else WolfTraits
    }

    function FoodTag(): Tag {
      if this == Rabbits then PlantTag else RabbitTag
    }

    function OwnTag(): Tag {
      if this == Rabbits then RabbitTag else WolfTag
    }
  }

  /** Whether the target of branch `g` is within reach from `pos`: a rabbit
      reaches a plant in its 5 x 5 window (atPlant), a wolf a rabbit on its
      own cell (atRabbit); both reach water in the 5 x 5 window (atWater) and
      a mate in the mate window (atMate); roaming reaches nothing. */
  function Reaches(bp: Blueprint, s: Species, g: Goal, pos: Cell): bool
    reads bp, bp.cells
    requires bp.Valid()
  {
    match g
    case Food => if s == Rabbits then Nearby(bp, PlantTag, pos) else AtRabbit(bp, pos)
    case Water => Nearby(bp, WaterTag, pos)
    case Mate => AtMate(bp, s.OwnTag(), pos)
    case Wander => false
  }

  /** What one update decides from the needs `n` and the cell `pos` it
      starts from: the needs after the tick, what the sweep sees, the branch
      taken, and whether its target is within reach. */
  ghost function PlanFor(bp: Blueprint, s: Species, sweep: seq<Cell>, n: Needs, pos: Cell): Plan
    reads bp, bp.cells
    requires bp.Valid()
  {
    var m := Tick(n, s.Limits());
    var seen := Scan(bp, s.FoodTag(), s.OwnTag(), pos, sweep);
    var g := Choose(m, s.Limits(), seen);
    Plan(seen, m, g, Reaches(bp, s, g, pos))
  }

  /** The if / else-if chain of update, for either species, on the needs
      `n` after the tick and the caches `seen` after the sweep: the first
      pressing need sets the target and, when its target is within reach,
      resets that need (a wolf then eats, an agent at a mate breeds); with
      no pressing need the target is the outcome of roaming. */
  method Branch(bp: Blueprint, s: Species, n: Needs, seen: Sightings, pos: Cell,
                headedTo: Cell, terrainGenerated: bool, pick: Cell)
    returns (m: Needs, target: Cell, feeds: bool, spawns: bool)
    requires bp.Valid()
    ensures var g := Choose(n, s.Limits(), seen);
      var reached := Reaches(bp, s, g, pos);
      && m == Settle(n, g, reached)
      && target == Target(seen, g, RoamTarget(terrainGenerated, pos, headedTo, pick))
      && feeds == (g == Food && reached)
      && spawns == (g == Mate && reached)
  {
    var limits := s.Limits();
    m, target, feeds, spawns := n, headedTo, false, false;
    if n.hunger > limits.maxHunger / 2.0 && seen.food != NoCell {
      target := seen.food;
      var atFood := if s == Rabbits then Nearby(bp, PlantTag, pos) else AtRabbit(bp, pos);
      if atFood {
        m, feeds := m.(hunger := 0.0), true;
      }
    } else if n.thirst > limits.maxThirst / 2.0 && seen.water != NoCell {
      target := seen.water;
      if Nearby(bp, WaterTag, pos) {
        m := m.(thirst := 0.0);
      }
    } else if n.urge > limits.maxUrge / 2.0 && seen.mate != NoCell {
      target := seen.mate;
      if AtMate(bp, s.OwnTag(), pos) {
        m, spawns := m.(urge := 0.0), true;
      }
    } else {
      target := RoamTarget(terrainGenerated, pos, headedTo, pick);
    }
  }

  class Rabbit {
    var position: Cell
    var headedTo: Cell
    var closestFood: Cell
    var closestWater: Cell
    var closestMate: Cell
    var hunger: real
    var thirst: real
    var urge: real

    function Levels(): Needs
      reads this
    {
      Needs(hunger, thirst, urge)
    }

    function Seen(): Sightings
      reads this
    {
      Sightings(closestFood, closestWater, closestMate)
    }

    /** The Animal and Rabbit constructors: empty caches, roam target on the
        starting cell, drawn needs. */
    constructor (position: Cell, born: Needs)
      ensures this.position == position && headedTo == position
      ensures Seen() == Unseen && Levels() == born
    {
      this.position, headedTo := position, position;
      closestFood, closestWater, closestMate := NoCell, NoCell, NoCell;
      hunger, thirst, urge := born.hunger, born.thirst, born.urge;
    }

    /** What update decides, read off the state before it. */
    ghost function Decide(w: World): Plan
      reads this, w.blueprint, w.blueprint.cells
      requires w.Valid()
    {
      PlanFor(w.blueprint, Rabbits, w.rabbitSweep, Levels(), position)
    }

    /** Rabbit::move: the tag leaves the old cell, the rabbit takes one step
        towards its goal, the tag is added on the new cell. */
    method Move(w: World)
      requires w.Valid()
      modifies this, w.blueprint, w.blueprint.cells
      ensures w.Valid()
      ensures position == w.step(old(position), headedTo)
      ensures headedTo == old(headedTo) && Levels() == old(Levels()) && Seen() == old(Seen())
      ensures w.blueprint.grid == w.Tagged(w.Untagged(old(w.blueprint.grid), RabbitTag, old(position)), RabbitTag, position)
    {
      w.blueprint.Remove(RabbitTag, position.x, position.y);
      position := w.step(position, headedTo);
      w.blueprint.Add(RabbitTag, position.x, position.y);
    }

    /** Rabbit::scanSurroundings: the caches are cleared, then filled by the
        sweep, first hit wins. */
    method ScanSurroundings(w: World)
      requires w.Valid()
      modifies this
      ensures Seen() == Scan(w.blueprint, PlantTag, RabbitTag, position, w.rabbitSweep)
      ensures position == old(position) && headedTo == old(headedTo) && Levels() == old(Levels())
    {
      var seen := Sweep(w.blueprint, PlantTag, RabbitTag, position, w.rabbitSweep);
      closestFood, closestWater, closestMate := seen.food, seen.water, seen.mate;
    }

    /** The branch chain of Rabbit::update, run on the needs and caches as
        they are after the tick and the sweep: the first pressing need sets
        the goal; a reached plant or water resets that need, a reached mate
        resets the urge and adds a rabbit on this cell; with no pressing
        need the rabbit roams. */
    method Pursue(w: World, pick: Cell) returns (feeds: bool, spawns: bool)
      requires w.Valid()
      modifies this
      ensures var g := Choose(old(Levels()), RabbitTraits, old(Seen()));
        var reached := old(Reaches(w.blueprint, Rabbits, g, position));
        && Levels() == Settle(old(Levels()), g, reached)
        && headedTo == Target(old(Seen()), g, RoamTarget(w.terrainGenerated, old(position), old(headedTo), pick))
        && feeds == (g == Food && reached)
        && spawns == (g == Mate && reached)
      ensures position == old(position) && Seen() == old(Seen())
    {
      var n, target;
      n, target, feeds, spawns := Branch(w.blueprint, Rabbits, Levels(), Seen(), position,
                                         headedTo, w.terrainGenerated, pick);
      hunger, thirst, urge, headedTo := n.hunger, n.thirst, n.urge, target;
    }

    /** The first half of Rabbit::update: the needs grow by their increments, the
        sweep refills the caches, the branch chain runs; only this agent
        changes, and it ends as the plan read off the state before says. */
    method Think(w: World, pick: Cell) returns (feeds: bool, spawns: bool)
      requires w.Valid()
      modifies this
      ensures var p := old(Decide(w));
        && Seen() == p.seen && Levels() == p.After()
        && headedTo == Target(p.seen, p.goal, RoamTarget(w.terrainGenerated, old(position), old(headedTo), pick))
        && feeds == p.Feeds() && spawns == p.Spawns()
      ensures position == old(position)
    {
      hunger := hunger + RabbitTraits.hungerDelta;
      thirst := thirst + RabbitTraits.thirstDelta;
      urge := urge + RabbitTraits.urgeDelta;
      ScanSurroundings(w);
      feeds, spawns := Pursue(w, pick);
    }

    /** The population changes the branch chain of Rabbit::update makes:
        a newborn rabbit is added on this cell when the rabbit bred. This agent is not touched. */
    method Resolve(w: World, spawns: bool, newborn: Needs) returns (ghost born: seq<Rabbit>)
      requires w.Valid()
      modifies w, w.blueprint, w.blueprint.cells
      ensures w.Valid()
      ensures |born| == (if spawns then 1 else 0)
      ensures forall b :: b in born ==> fresh(b) && b.position == b.headedTo == position
      ensures forall b :: b in born ==> b.Levels() == newborn && b.Seen() == Unseen
      ensures w.rabbits == old(w.rabbits) + born
      ensures RabbitCells(w.rabbits) == old(RabbitCells(w.rabbits)) + (if spawns then [position] else [])
      ensures var g0 := old(w.blueprint.grid);
        w.blueprint.grid == if spawns then w.Tagged(g0, RabbitTag, position) else g0
      ensures w.wolves == old(w.wolves) && w.plants == old(w.plants) && w.terrainGenerated == old(w.terrainGenerated)
    {
      born := [];
      if spawns {
        var baby := w.AddRabbit(position, newborn);
        born := [baby];
        assert forall b :: b in born ==> b == baby;
      }
    }

    /** The end of Rabbit::update: an agent whose hunger or thirst is over its
        maximum is removed from the population (the first rabbit standing on
        this cell, which need not be this one); then, dead or alive, this
        agent moves, so a dead agent's tag is moved rather than removed. */
    method Conclude(w: World)
      requires w.Valid()
      modifies this, w, w.blueprint, w.blueprint.cells
      ensures w.Valid()
      ensures position == w.step(old(position), headedTo)
      ensures headedTo == old(headedTo) && Levels() == old(Levels()) && Seen() == old(Seen())
      ensures w.rabbits == if Dies(Levels(), RabbitTraits) then EraseAt(old(w.rabbits), FirstIndex(old(RabbitCells(w.rabbits)), old(position)))
                       else old(w.rabbits)
      ensures var g := if Dies(Levels(), RabbitTraits) && old(position) in old(RabbitCells(w.rabbits))
                       then w.Untagged(old(w.blueprint.grid), RabbitTag, old(position)) else old(w.blueprint.grid);
        w.blueprint.grid == w.Tagged(w.Untagged(g, RabbitTag, old(position)), RabbitTag, position)
      ensures w.wolves == old(w.wolves) && w.plants == old(w.plants) && w.terrainGenerated == old(w.terrainGenerated)
    {
      if hunger > RabbitTraits.maxHunger || thirst > RabbitTraits.maxThirst {
        w.RemoveRabbit(position);
      }
      Move(w);
    }

    /** Rabbit::update: the needs grow, the sweep runs, the branch chain
        runs; then a rabbit over its hunger or thirst maximum is removed from
        the population (the first rabbit standing on this cell), and finally,
        dead or alive, this rabbit moves. */
    method Update(w: World, d: Draw) returns (ghost born: seq<Rabbit>)
      requires w.Valid()
      modifies this, w, w.blueprint, w.blueprint.cells
      ensures w.Valid()
      ensures Seen() == old(Decide(w)).seen && Levels() == old(Decide(w)).After()
      ensures headedTo == Target(old(Decide(w)).seen, old(Decide(w)).goal,
                                 RoamTarget(old(w.terrainGenerated), old(position), old(headedTo), d.roamTarget))
      ensures position == w.step(old(position), headedTo)
      ensures |born| == (if old(Decide(w)).Spawns() then 1 else 0)
      ensures forall b :: b in born ==> fresh(b) && b.position == b.headedTo == old(position)
      ensures forall b :: b in born ==> b.Levels() == d.newborn && b.Seen() == Unseen
      ensures var p := old(Decide(w));
        var cells := old(RabbitCells(w.rabbits)) + (if p.Spawns() then [old(position)] else []);
        w.rabbits == if Dies(p.After(), RabbitTraits) then EraseAt(old(w.rabbits) + born, FirstIndex(cells, old(position)))
                     else old(w.rabbits) + born
      ensures var p := old(Decide(w));
        var cells := old(RabbitCells(w.rabbits)) + (if p.Spawns() then [old(position)] else []);
        var g1 := if p.Spawns() then w.Tagged(old(w.blueprint.grid), RabbitTag, old(position)) else old(w.blueprint.grid);
        var g2 := if Dies(p.After(), RabbitTraits) && old(position) in cells then w.Untagged(g1, RabbitTag, old(position)) else g1;
        w.blueprint.grid == w.Tagged(w.Untagged(g2, RabbitTag, old(position)), RabbitTag, position)
      ensures w.wolves == old(w.wolves) && w.plants == old(w.plants) && w.terrainGenerated == old(w.terrainGenerated)
    {
      var feeds, spawns := Think(w, d.roamTarget);
      RabbitCellsFrame(w.rabbits);
      born := Resolve(w, spawns, d.newborn);
      Conclude(w);
    }
  }

  class Wolf {
    var position: Cell
    var headedTo: Cell
    var closestFood: Cell
    var closestWater: Cell
    var closestMate: Cell
    var hunger: real
    var thirst: real
    var urge: real

    function Levels(): Needs
      reads this
    {
      Needs(hunger, thirst, urge)
    }

    function Seen(): Sightings
      reads this
    {
      Sightings(closestFood, closestWater, closestMate)
    }

    /** The Animal and Wolf constructors. */
    constructor (position: Cell, born: Needs)
      ensures this.position == position && headedTo == position
      ensures Seen() == Unseen && Levels() == born
    {
      this.position, headedTo := position, position;
      closestFood, closestWater, closestMate := NoCell, NoCell, NoCell;
      hunger, thirst, urge := born.hunger, born.thirst, born.urge;
    }

    /** What update decides, read off the state before it. */
    ghost function Decide(w: World): Plan
      reads this, w.blueprint, w.blueprint.cells
      requires w.Valid()
    {
      PlanFor(w.blueprint, Wolves, w.wolfSweep, Levels(), position)
    }

    /** Wolf::move. */
    method Move(w: World)
      requires w.Valid()
      modifies this, w.blueprint, w.blueprint.cells
      ensures w.Valid()
      ensures position == w.step(old(position), headedTo)
      ensures headedTo == old(headedTo) && Levels() == old(Levels()) && Seen() == old(Seen())
      ensures w.blueprint.grid == w.Tagged(w.Untagged(old(w.blueprint.grid), WolfTag, old(position)), WolfTag, position)
    {
      w.blueprint.Remove(WolfTag, position.x, position.y);
      position := w.step(position, headedTo);
      w.blueprint.Add(WolfTag, position.x, position.y);
    }

    /** Wolf::scanSurroundings: as the rabbit's, looking for rabbits as food
        and wolves as mates. */
    method ScanSurroundings(w: World)
      requires w.Valid()
      modifies this
      ensures Seen() == Scan(w.blueprint, RabbitTag, WolfTag, position, w.wolfSweep)
      ensures position == old(position) && headedTo == old(headedTo) && Levels() == old(Levels())
    {
      var seen := Sweep(w.blueprint, RabbitTag, WolfTag, position, w.wolfSweep);
      closestFood, closestWater, closestMate := seen.food, seen.water, seen.mate;
    }

    /** The branch chain of Wolf::update: as the rabbit's, except that a
        hunting wolf standing on a rabbit tag eats: its hunger resets and the
        first rabbit on its cell is removed. */
    method Pursue(w: World, pick: Cell) returns (feeds: bool, spawns: bool)
      requires w.Valid()
      modifies this
      ensures var g := Choose(old(Levels()), WolfTraits, old(Seen()));
        var reached := old(Reaches(w.blueprint, Wolves, g, position));
        && Levels() == Settle(old(Levels()), g, reached)
        && headedTo == Target(old(Seen()), g, RoamTarget(w.terrainGenerated, old(position), old(headedTo), pick))
        && feeds == (g == Food && reached)
        && spawns == (g == Mate && reached)
      ensures position == old(position) && Seen() == old(Seen())
    {
      var n, target;
      n, target, feeds, spawns := Branch(w.blueprint, Wolves, Levels(), Seen(), position,
                                         headedTo, w.terrainGenerated, pick);
      hunger, thirst, urge, headedTo := n.hunger, n.thirst, n.urge, target;
    }

    /** The first half of Wolf::update: the needs grow by their increments, the
        sweep refills the caches, the branch chain runs; only this agent
        changes, and it ends as the plan read off the state before says. */
    method Think(w: World, pick: Cell) returns (feeds: bool, spawns: bool)
      requires w.Valid()
      modifies this
      ensures var p := old(Decide(w));
        && Seen() == p.seen && Levels() == p.After()
        && headedTo == Target(p.seen, p.goal, RoamTarget(w.terrainGenerated, old(position), old(headedTo), pick))
        && feeds == p.Feeds() && spawns == p.Spawns()
      ensures position == old(position)
    {
      hunger := hunger + WolfTraits.hungerDelta;
      thirst := thirst + WolfTraits.thirstDelta;
      urge := urge + WolfTraits.urgeDelta;
      ScanSurroundings(w);
      feeds, spawns := Pursue(w, pick);
    }

    /** The population changes the branch chain of Wolf::update makes:
        the eaten rabbit (the first one on this cell) is removed, and a
        newborn wolf is added on this cell when the wolf bred. This agent is not touched. */
    method Resolve(w: World, feeds: bool, spawns: bool, newborn: Needs) returns (ghost born: seq<Wolf>)
      requires w.Valid()
      requires !(feeds && spawns)
      modifies w, w.blueprint, w.blueprint.cells
      ensures w.Valid()
      ensures |born| == (if spawns then 1 else 0)
      ensures forall b :: b in born ==> fresh(b) && b.position == b.headedTo == position
      ensures forall b :: b in born ==> b.Levels() == newborn && b.Seen() == Unseen
      ensures w.wolves == old(w.wolves) + born
      ensures WolfCells(w.wolves) == old(WolfCells(w.wolves)) + (if spawns then [position] else [])
      ensures w.rabbits == if feeds then EraseAt(old(w.rabbits), FirstIndex(old(RabbitCells(w.rabbits)), position))
                           else old(w.rabbits)
      ensures var g0 := if feeds && position in old(RabbitCells(w.rabbits))
                  then w.Untagged(old(w.blueprint.grid), RabbitTag, position) else old(w.blueprint.grid);
        w.blueprint.grid == if spawns then w.Tagged(g0, WolfTag, position) else g0
      ensures w.plants == old(w.plants) && w.terrainGenerated == old(w.terrainGenerated)
    {
      born := [];
      if feeds {
        w.RemoveRabbit(position);
      } else if spawns {
        var baby := Spawn(w, newborn);
        born := [baby];
        assert forall b :: b in born ==> b == baby;
      }
    }

    /** The breeding outcome of the mate branch: a pup on this wolf's cell. */
    method Spawn(w: World, newborn: Needs) returns (ghost pup: Wolf)
      requires w.Valid()
      modifies w, w.blueprint, w.blueprint.cells
      ensures w.Valid()
      ensures fresh(pup) && pup.position == pup.headedTo == position
      ensures pup.Levels() == newborn && pup.Seen() == Unseen
      ensures w.wolves == old(w.wolves) + [pup]
      ensures WolfCells(w.wolves) == old(WolfCells(w.wolves)) + [position]
      ensures w.blueprint.grid == w.Tagged(old(w.blueprint.grid), WolfTag, position)
      ensures w.rabbits == old(w.rabbits) && w.plants == old(w.plants) && w.terrainGenerated == old(w.terrainGenerated)
    {
      pup := w.AddWolf(position, newborn);
    }

    /** The end of Wolf::update: an agent whose hunger or thirst is over its
        maximum is removed from the population (on integer cells, the first
        wolf standing on this cell; the exact-position match of removeWolf
        would pick this wolf itself); then, dead or alive, this
        agent moves, so a dead agent's tag is moved rather than removed. */
    method Conclude(w: World)
      requires w.Valid()
      modifies this, w, w.blueprint, w.blueprint.cells
      ensures w.Valid()
      ensures position == w.step(old(position), headedTo)
      ensures headedTo == old(headedTo) && Levels() == old(Levels()) && Seen() == old(Seen())
      ensures w.wolves == if Dies(Levels(), WolfTraits) then EraseAt(old(w.wolves), FirstIndex(old(WolfCells(w.wolves)), old(position)))
                       else old(w.wolves)
      ensures var g := if Dies(Levels(), WolfTraits) && old(position) in old(WolfCells(w.wolves))
                       then w.Untagged(old(w.blueprint.grid), WolfTag, old(position)) else old(w.blueprint.grid);
        w.blueprint.grid == w.Tagged(w.Untagged(g, WolfTag, old(position)), WolfTag, position)
      ensures w.rabbits == old(w.rabbits) && w.plants == old(w.plants) && w.terrainGenerated == old(w.terrainGenerated)
    {
      if hunger > WolfTraits.maxHunger || thirst > WolfTraits.maxThirst {
        w.RemoveWolf(position);
      }
      Move(w);
    }

    /** Wolf::update: the needs grow, the sweep runs, the branch chain runs;
        then a wolf over its hunger or thirst maximum is removed (the first
        wolf standing on this cell), and finally, dead or alive, it moves. */
    method Update(w: World, d: Draw) returns (ghost born: seq<Wolf>)
      requires w.Valid()
      modifies this, w, w.blueprint, w.blueprint.cells
      ensures w.Valid()
      ensures Seen() == old(Decide(w)).seen && Levels() == old(Decide(w)).After()
      ensures headedTo == Target(old(Decide(w)).seen, old(Decide(w)).goal,
                                 RoamTarget(old(w.terrainGenerated), old(position), old(headedTo), d.roamTarget))
      ensures position == w.step(old(position), headedTo)
      ensures |born| == (if old(Decide(w)).Spawns() then 1 else 0)
      ensures forall b :: b in born ==> fresh(b) && b.position == b.headedTo == old(position)
      ensures forall b :: b in born ==> b.Levels() == d.newborn && b.Seen() == Unseen
      ensures w.rabbits == if old(Decide(w)).Feeds() then EraseAt(old(w.rabbits), FirstIndex(old(RabbitCells(w.rabbits)), old(position)))
                           else old(w.rabbits)
      ensures var p := old(Decide(w));
        var cells := old(WolfCells(w.wolves)) + (if p.Spawns() then [old(position)] else []);
        w.wolves == if Dies(p.After(), WolfTraits) then EraseAt(old(w.wolves) + born, FirstIndex(cells, old(position)))
                    else old(w.wolves) + born
      ensures var p := old(Decide(w));
        var cells := old(WolfCells(w.wolves)) + (if p.Spawns() then [old(position)] else []);
        var g0 := if p.Feeds() && old(position) in old(RabbitCells(w.rabbits))
                  then w.Untagged(old(w.blueprint.grid), RabbitTag, old(position)) else old(w.blueprint.grid);
        var g1 := if p.Spawns() then w.Tagged(g0, WolfTag, old(position)) else g0;
        var g2 := if Dies(p.After(), WolfTraits) && old(position) in cells then w.Untagged(g1, WolfTag, old(position)) else g1;
        w.blueprint.grid == w.Tagged(w.Untagged(g2, WolfTag, old(position)), WolfTag, position)
      ensures w.plants == old(w.plants) && w.terrainGenerated == old(w.terrainGenerated)
    {
      var feeds, spawns := Think(w, d.roamTarget);
      WolfCellsFrame(w.wolves);
      RabbitCellsFrame(w.rabbits);
      born := Resolve(w, feeds, spawns, d.newborn);
      Conclude(w);
    }
  }
}
