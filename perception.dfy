/** What an agent perceives through the position blueprint: the small
    proximity windows used to decide "close enough to eat, drink or mate",
    and the first-hit caches filled by the ring sweep. */
module Perception {
  import opened Occupancy

  /** Whether some cell of column x between rows y0 (inclusive) and y1
      (exclusive) carries `t`, scanning rows in increasing order. */
  function AnyInColumn(bp: Blueprint, t: Tag, x: int, y0: int, y1: int): bool
    reads bp, bp.cells
    requires bp.Valid()
    decreases y1 - y0
  {
    if y1 <= y0 then false
    else bp.Check(t, x, y0) || AnyInColumn(bp, t, x, y0 + 1, y1)
  }

  lemma {:induction false} AnyInColumnMeans(bp: Blueprint, t: Tag, x: int, y0: int, y1: int)
    requires bp.Valid()
    ensures AnyInColumn(bp, t, x, y0, y1) <==> exists y :: y0 <= y < y1 && bp.Check(t, x, y)
    decreases y1 - y0
  {
    if y0 < y1 {
      AnyInColumnMeans(bp, t, x, y0 + 1, y1);
    }
  }

  /** Whether some cell of the box [x0, x1) x [y0, y1) carries `t`: the two
      nested early-return loops of the proximity checks, outer loop over x. */
  function AnyInBox(bp: Blueprint, t: Tag, x0: int, y0: int, x1: int, y1: int): bool
    reads bp, bp.cells
    requires bp.Valid()
    decreases x1 - x0
  {
    if x1 <= x0 then false
    else AnyInColumn(bp, t, x0, y0, y1) || AnyInBox(bp, t, x0 + 1, y0, x1, y1)
  }

  lemma {:induction false} AnyInBoxMeans(bp: Blueprint, t: Tag, x0: int, y0: int, x1: int, y1: int)
    requires bp.Valid()
    ensures AnyInBox(bp, t, x0, y0, x1, y1) <==> exists x, y :: x0 <= x < x1 && y0 <= y < y1 && bp.Check(t, x, y)
    decreases x1 - x0
  {
    if x0 < x1 {
      AnyInColumnMeans(bp, t, x0, y0, y1);
      AnyInBoxMeans(bp, t, x0 + 1, y0, x1, y1);
    }
  }

  lemma CheckIsHolds(bp: Blueprint, t: Tag)
    requires bp.Valid()
    ensures forall x, y :: bp.Check(t, x, y) <==> Holds(bp.grid, bp.width, bp.height, t, x, y)
  {
  }

  /** atPlant / atWater: the 5 x 5 window at offsets -2..+2 around `pos`. */
  function Nearby(bp: Blueprint, t: Tag, pos: Cell): bool
    reads bp, bp.cells
    requires bp.Valid()
  {
    AnyInBox(bp, t, pos.x - 2, pos.y - 2, pos.x + 3, pos.y + 3)
  }

  lemma NearbyMeans(bp: Blueprint, t: Tag, pos: Cell)
    requires bp.Valid()
    ensures Nearby(bp, t, pos) <==> exists x, y :: pos.x - 2 <= x <= pos.x + 2 && pos.y - 2 <= y <= pos.y + 2
                                                   && Holds(bp.grid, bp.width, bp.height, t, x, y)
  {
    CheckIsHolds(bp, t);
    AnyInBoxMeans(bp, t, pos.x - 2, pos.y - 2, pos.x + 3, pos.y + 3);
  }

  /** atMate: loop indices i, j in 0..2 filtered by `i != 0 && j != 0`, at
      offsets i - 1, j - 1; the window is therefore offsets {0, +1} x {0, +1},
      which contains the agent's own cell. */
  function AtMate(bp: Blueprint, t: Tag, pos: Cell): bool
    reads bp, bp.cells
    requires bp.Valid()
  {
    AnyInBox(bp, t, pos.x, pos.y, pos.x + 2, pos.y + 2)
  }

  lemma AtMateMeans(bp: Blueprint, t: Tag, pos: Cell)
    requires bp.Valid()
    ensures AtMate(bp, t, pos) <==> exists x, y :: pos.x <= x <= pos.x + 1 && pos.y <= y <= pos.y + 1
                                                   && Holds(bp.grid, bp.width, bp.height, t, x, y)
  {
    CheckIsHolds(bp, t);
    AnyInBoxMeans(bp, t, pos.x, pos.y, pos.x + 2, pos.y + 2);
  }

  /** Wolf::atRabbit: only the wolf's own cell is looked at. */
  function AtRabbit(bp: Blueprint, pos: Cell): bool
    reads bp, bp.cells
    requires bp.Valid()
  {
    bp.Check(RabbitTag, pos.x, pos.y)
  }

  /** A wolf is at a rabbit exactly when its own cell carries a rabbit tag;
      that cell lies in both larger windows. */
  lemma AtRabbitMeans(bp: Blueprint, pos: Cell)
    requires bp.Valid()
    ensures AtRabbit(bp, pos) <==> Holds(bp.grid, bp.width, bp.height, RabbitTag, pos.x, pos.y)
    ensures AtRabbit(bp, pos) ==> Nearby(bp, RabbitTag, pos) && AtMate(bp, RabbitTag, pos)
  {
    CheckIsHolds(bp, RabbitTag);
    NearbyMeans(bp, RabbitTag, pos);
    AtMateMeans(bp, RabbitTag, pos);
  }

  /** Because the mate window contains the agent's own cell, an agent whose
      own tag is on its cell is always "at a mate". */
  lemma AtMateSeesOwnTag(bp: Blueprint, t: Tag, pos: Cell)
    requires bp.Valid()
    requires Holds(bp.grid, bp.width, bp.height, t, pos.x, pos.y)
    ensures AtMate(bp, t, pos)
  {
    AtMateMeans(bp, t, pos);
  }

  /** The mate window never looks west or north of the agent: the offset -1
      row and column of the 3 x 3 loop may all hold the tag, and with the
      {0, +1} x {0, +1} window empty the agent is still not "at a mate". */
  lemma AtMateIgnoresWestAndNorth(bp: Blueprint, t: Tag, pos: Cell)
    requires bp.Valid()
    requires Holds(bp.grid, bp.width, bp.height, t, pos.x - 1, pos.y - 1)
    requires Holds(bp.grid, bp.width, bp.height, t, pos.x - 1, pos.y)
    requires Holds(bp.grid, bp.width, bp.height, t, pos.x - 1, pos.y + 1)
    requires Holds(bp.grid, bp.width, bp.height, t, pos.x, pos.y - 1)
    requires Holds(bp.grid, bp.width, bp.height, t, pos.x + 1, pos.y - 1)
    requires forall x, y :: pos.x <= x <= pos.x + 1 && pos.y <= y <= pos.y + 1 ==> !Holds(bp.grid, bp.width, bp.height, t, x, y)
    ensures !AtMate(bp, t, pos)
  {
    AtMateMeans(bp, t, pos);
  }

  // ---------------------------------------------------------------------------
  // The ring sweep

  function Shift(pos: Cell, offset: Cell): Cell {
    Cell(pos.x + offset.x, pos.y + offset.y)
  }

  /** The cells visited by a ring sweep around `pos`, in sweep order. With an
      integer position, rounding pos + r(cos a, sin a) equals pos plus the
      rounded offset, so a species' sweep is one fixed list of offsets
      (radius 1 up to the vision radius, angle increasing within a radius). */
  function Ring(pos: Cell, sweep: seq<Cell>): seq<Cell> {
    seq(|sweep|, i requires 0 <= i < |sweep| => Shift(pos, sweep[i]))
  }

  lemma RingGrows(pos: Cell, sweep: seq<Cell>, k: nat)
    requires k < |sweep|
    ensures Ring(pos, sweep[..k + 1]) == Ring(pos, sweep[..k]) + [Shift(pos, sweep[k])]
  {
  }

  /** Candidate `c` counts for a cache when it carries `t` and is not excluded. */
  ghost predicate Hit(g: Grid, width: nat, height: nat, t: Tag, c: Cell, excluded: set<Cell>)
    requires Shaped(g, width, height)
  {
    Holds(g, width, height, t, c.x, c.y) && c !in excluded
  }

  /** The value a "first hit wins" cache holds after visiting `cands` in
      order: the first candidate that is a hit, or NoCell when none is. */
  ghost function FirstHit(g: Grid, width: nat, height: nat, t: Tag, cands: seq<Cell>, excluded: set<Cell>): Cell
    requires Shaped(g, width, height)
  {
    if cands == [] then NoCell
    else
      var earlier := FirstHit(g, width, height, t, cands[..|cands| - 1], excluded);
      var last := cands[|cands| - 1];
      if earlier != NoCell then earlier
      else if Hit(g, width, height, t, last, excluded) then last
      else NoCell
  }

  /** The cache is empty exactly when no candidate is a hit; otherwise it
      holds a candidate that is a hit, with no hit before it, that carries
      the tag and is not excluded. */
  lemma {:induction false} FirstHitMeans(g: Grid, width: nat, height: nat, t: Tag, cands: seq<Cell>, excluded: set<Cell>)
    requires Shaped(g, width, height)
    ensures var c := FirstHit(g, width, height, t, cands, excluded);
      && (c == NoCell <==> forall i :: 0 <= i < |cands| ==> !Hit(g, width, height, t, cands[i], excluded))
      && (c != NoCell ==> exists i :: 0 <= i < |cands| && cands[i] == c && Hit(g, width, height, t, c, excluded)
                                      && forall j :: 0 <= j < i ==> !Hit(g, width, height, t, cands[j], excluded))
      && (c != NoCell ==> c !in excluded && Holds(g, width, height, t, c.x, c.y))
  {
    if cands != [] {
      var n := |cands| - 1;
      var front := cands[..n];
      FirstHitMeans(g, width, height, t, front, excluded);
      var earlier := FirstHit(g, width, height, t, front, excluded);
      assert forall j :: 0 <= j < n ==> cands[j] == front[j];
      if earlier != NoCell {
        var i :| 0 <= i < n && front[i] == earlier && Hit(g, width, height, t, earlier, excluded)
                 && forall j :: 0 <= j < i ==> !Hit(g, width, height, t, front[j], excluded);
        assert cands[i] == earlier;
      } else if Hit(g, width, height, t, cands[n], excluded) {
        assert forall j :: 0 <= j < n ==> !Hit(g, width, height, t, cands[j], excluded);
      }
    }
  }

  /** Visiting one more candidate: a full cache stays as it is, an empty
      one takes the candidate when it is a hit. */
  lemma FirstHitGrows(g: Grid, width: nat, height: nat, t: Tag, cands: seq<Cell>, c: Cell, excluded: set<Cell>)
    requires Shaped(g, width, height)
    ensures FirstHit(g, width, height, t, cands + [c], excluded) ==
      if FirstHit(g, width, height, t, cands, excluded) != NoCell then FirstHit(g, width, height, t, cands, excluded)
      else if Hit(g, width, height, t, c, excluded) then c
      else NoCell
  {
    assert (cands + [c])[..|cands|] == cands;
  }

  /** A hit with no hit before it in sweep order is what the cache keeps. */
  lemma FirstHitIsEarliest(g: Grid, width: nat, height: nat, t: Tag, cands: seq<Cell>, excluded: set<Cell>, i: nat)
    requires Shaped(g, width, height)
    requires i < |cands| && Hit(g, width, height, t, cands[i], excluded)
    requires forall j :: 0 <= j < i ==> !Hit(g, width, height, t, cands[j], excluded)
    ensures FirstHit(g, width, height, t, cands, excluded) == cands[i]
  {
    FirstHitMeans(g, width, height, t, cands, excluded);
  }

  /** The three caches filled by the sweep; NoCell means "nothing seen". */
  datatype Sightings = Sightings(food: Cell, water: Cell, mate: Cell)

  const Unseen := Sightings(NoCell, NoCell, NoCell)

  /** scanSurroundings: radius 0 looks at the agent's own cell for food and
      water only; the ring sweep then feeds all three caches, the mate cache
      skipping the agent's own cell. Each cache keeps its first hit. */
  ghost function Scan(bp: Blueprint, food: Tag, mate: Tag, pos: Cell, sweep: seq<Cell>): Sightings
    reads bp
    requires Shaped(bp.grid, bp.width, bp.height)
  {
    var around := [pos] + Ring(pos, sweep);
    Sightings(FirstHit(bp.grid, bp.width, bp.height, food, around, {}),
              FirstHit(bp.grid, bp.width, bp.height, WaterTag, around, {}),
              FirstHit(bp.grid, bp.width, bp.height, mate, Ring(pos, sweep), {pos}))
  }

  /** Each cache is empty exactly when no cell it looks at carries its tag,
      and otherwise holds one of those cells that does; only the mate cache
      skips the agent's own cell, and only the food and water caches look at it. */
  lemma ScanMeans(bp: Blueprint, food: Tag, mate: Tag, pos: Cell, sweep: seq<Cell>)
    requires Shaped(bp.grid, bp.width, bp.height)
    ensures var s := Scan(bp, food, mate, pos, sweep);
      && (s.food == NoCell <==> forall c :: c in [pos] + Ring(pos, sweep) ==> !Holds(bp.grid, bp.width, bp.height, food, c.x, c.y))
      && (s.food != NoCell ==> s.food in [pos] + Ring(pos, sweep) && Holds(bp.grid, bp.width, bp.height, food, s.food.x, s.food.y))
      && (s.water == NoCell <==> forall c :: c in [pos] + Ring(pos, sweep) ==> !Holds(bp.grid, bp.width, bp.height, WaterTag, c.x, c.y))
      && (s.water != NoCell ==> s.water in [pos] + Ring(pos, sweep) && Holds(bp.grid, bp.width, bp.height, WaterTag, s.water.x, s.water.y))
      && (s.mate == NoCell <==> forall c :: c in Ring(pos, sweep) && c != pos ==> !Holds(bp.grid, bp.width, bp.height, mate, c.x, c.y))
      && (s.mate != NoCell ==> s.mate in Ring(pos, sweep) && s.mate != pos && Holds(bp.grid, bp.width, bp.height, mate, s.mate.x, s.mate.y))
  {
    var around := [pos] + Ring(pos, sweep);
    FirstHitMeans(bp.grid, bp.width, bp.height, food, around, {});
    FirstHitMeans(bp.grid, bp.width, bp.height, WaterTag, around, {});
    FirstHitMeans(bp.grid, bp.width, bp.height, mate, Ring(pos, sweep), {pos});
  }

  /** One look at a cell by one cache: the cache takes `c` only while it is
      still empty, and only when `c` carries the tag and is not excluded. */
  method Offer(bp: Blueprint, t: Tag, c: Cell, excluded: set<Cell>, cache: Cell) returns (next: Cell)
    requires bp.Valid()
    ensures next == if cache != NoCell then cache else if Hit(bp.grid, bp.width, bp.height, t, c, excluded) then c else NoCell
  {
    next := cache;
    if bp.Check(t, c.x, c.y) && cache == NoCell {
      if c !in excluded {
        next := c;
      }
    }
  }

  /** The scanning loop shared by both species: the caches start empty,
      radius 0 offers the agent's own cell to the food and water caches,
      then every cell of the sweep is offered to all three in order; a cache
      takes a cell only while it is still empty, and the mate cache refuses
      the agent's own cell. */
  method Sweep(bp: Blueprint, foodTag: Tag, mateTag: Tag, pos: Cell, sweep: seq<Cell>) returns (seen: Sightings)
    requires bp.Valid()
    ensures seen == Scan(bp, foodTag, mateTag, pos, sweep)
  {
    ghost var g, w, h := bp.grid, bp.width, bp.height;
    var food := Offer(bp, foodTag, pos, {}, NoCell);
    var water := Offer(bp, WaterTag, pos, {}, NoCell);
    var mate := NoCell;
    FirstHitGrows(g, w, h, foodTag, [], pos, {});
    FirstHitGrows(g, w, h, WaterTag, [], pos, {});
    assert [] + [pos] == [pos];
    ghost var ring: seq<Cell> := [];
    var k := 0;
    while k < |sweep|
      invariant 0 <= k <= |sweep|
      invariant ring == Ring(pos, sweep[..k])
      invariant food == FirstHit(g, w, h, foodTag, [pos] + ring, {})
      invariant water == FirstHit(g, w, h, WaterTag, [pos] + ring, {})
      invariant mate == FirstHit(g, w, h, mateTag, ring, {pos})
    {
      var c := Shift(pos, sweep[k]);
      RingGrows(pos, sweep, k);
      FirstHitGrows(g, w, h, foodTag, [pos] + ring, c, {});
      FirstHitGrows(g, w, h, WaterTag, [pos] + ring, c, {});
      FirstHitGrows(g, w, h, mateTag, ring, c, {pos});
      assert [pos] + ring + [c] == [pos] + (ring + [c]);
      food := Offer(bp, foodTag, c, {}, food);
      water := Offer(bp, WaterTag, c, {}, water);
      mate := Offer(bp, mateTag, c, {pos}, mate);
      ring := ring + [c];
      k := k + 1;
    }
    assert sweep[..k] == sweep;
    seen := Sightings(food, water, mate);
  }
}
