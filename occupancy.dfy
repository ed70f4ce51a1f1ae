/** The position blueprint: a width x height grid of tag lists recording which
    kinds of entity (land, water, plant, rabbit, wolf) stand on each cell.

    The pure part (Grid, Holds, Put, Take, Consistent) is the abstract value of
    the grid and the facts proved about it; the class Blueprint is the mutable
    grid itself, kept equal to that value by its invariant. */
module Occupancy {
  import opened Seqs

  type Tag = char

  const WaterTag: Tag := 'w'
  const LandTag: Tag := 'l'
  const RabbitTag: Tag := 'r'
  const PlantTag: Tag := 'p'
  const WolfTag: Tag := 'W'

  /** An integer cell of the world. */
  datatype Cell = Cell(x: int, y: int)

  /** The "nothing found" marker written into a cache, the point (-1, -1). */
  const NoCell := Cell(-1, -1)

  /** The bounds check shared by every grid operation. It is strict at both
      ends, so column 0 and row 0 count as outside the world. */
  predicate InBounds(width: int, height: int, x: int, y: int) {
    0 < x < width && 0 < y < height
  }

  /** The abstract grid, indexed [x][y]. */
  type Grid = seq<seq<seq<Tag>>>

  ghost predicate Shaped(g: Grid, width: nat, height: nat) {
    |g| == width && forall x :: 0 <= x < width ==> |g[x]| == height
  }

  ghost function EmptyGrid(width: nat, height: nat): (g: Grid)
    ensures Shaped(g, width, height)
    ensures forall x, y :: 0 <= x < width && 0 <= y < height ==> g[x][y] == []
  {
    seq(width, _ => seq(height, _ => []))
  }

  /** Whether the cell (x, y) carries the tag `t`. */
  ghost predicate Holds(g: Grid, width: nat, height: nat, t: Tag, x: int, y: int)
    requires Shaped(g, width, height)
  {
    InBounds(width, height, x, y) && t in g[x][y]
  }

  /** The grid after appending `t` to the list of (x, y). */
  ghost function Put(g: Grid, width: nat, height: nat, t: Tag, x: int, y: int): (r: Grid)
    requires Shaped(g, width, height)
    ensures Shaped(r, width, height)
    ensures forall i, j :: 0 <= i < width && 0 <= j < height && (i != x || j != y) ==> r[i][j] == g[i][j]
  {
    if InBounds(width, height, x, y) then g[x := g[x][y := g[x][y] + [t]]] else g
  }

  /** The grid after erasing the first `t` from the list of (x, y). */
  ghost function Take(g: Grid, width: nat, height: nat, t: Tag, x: int, y: int): (r: Grid)
    requires Shaped(g, width, height)
    ensures Shaped(r, width, height)
    ensures forall i, j :: 0 <= i < width && 0 <= j < height && (i != x || j != y) ==> r[i][j] == g[i][j]
  {
    if InBounds(width, height, x, y) then g[x := g[x][y := RemoveFirst(g[x][y], t)]] else g
  }

  /** Column 0 and row 0 can neither be written nor found. */
  lemma EdgeIsOutside(g: Grid, width: nat, height: nat, t: Tag, x: int, y: int)
    requires Shaped(g, width, height)
    ensures !Holds(g, width, height, t, 0, y) && !Holds(g, width, height, t, x, 0)
    ensures Put(g, width, height, t, 0, y) == g && Put(g, width, height, t, x, 0) == g
  {
  }

  /** Appending makes the tag present at the target and changes no answer elsewhere. */
  lemma HoldsAfterPut(g: Grid, width: nat, height: nat, t: Tag, x: int, y: int, u: Tag, i: int, j: int)
    requires Shaped(g, width, height)
    ensures Holds(Put(g, width, height, t, x, y), width, height, u, i, j)
        <==> Holds(g, width, height, u, i, j) || (u == t && i == x && j == y && InBounds(width, height, x, y))
  {
  }

  /** Adding a tag that was not yet on the cell and then removing it restores the grid. */
  lemma {:induction false} TakeUndoesPut(g: Grid, width: nat, height: nat, t: Tag, x: int, y: int)
    requires Shaped(g, width, height)
    requires InBounds(width, height, x, y) ==> t !in g[x][y]
    ensures Take(Put(g, width, height, t, x, y), width, height, t, x, y) == g
  {
    if InBounds(width, height, x, y) {
      var col := g[x];
      var g1 := g[x := col[y := col[y] + [t]]];
      assert Put(g, width, height, t, x, y) == g1;
      RemoveFirstUndoesAppend(col[y], t);
      assert g1[x][y := RemoveFirst(g1[x][y], t)] == col;
      assert g[x := col] == g;
    }
  }

  // ---------------------------------------------------------------------------
  // Tags against entity positions

  /** The tags of kind `t` record exactly the in-bounds cells of `cells`:
      every in-bounds cell carries as many `t` tags as there are entities on it. */
  ghost predicate Consistent(g: Grid, width: nat, height: nat, t: Tag, cells: seq<Cell>)
    requires Shaped(g, width, height)
  {
    forall x, y :: InBounds(width, height, x, y) ==> multiset(g[x][y])[t] == multiset(cells)[Cell(x, y)]
  }

  /** Under consistency a tag is found exactly where some entity stands. */
  lemma TagsMarkEntities(g: Grid, width: nat, height: nat, t: Tag, cells: seq<Cell>, x: int, y: int)
    requires Shaped(g, width, height) && Consistent(g, width, height, t, cells)
    ensures Holds(g, width, height, t, x, y) <==> InBounds(width, height, x, y) && Cell(x, y) in cells
  {
    if InBounds(width, height, x, y) {
      assert multiset(g[x][y])[t] == multiset(cells)[Cell(x, y)];
    }
  }

  /** Spawning: appending an entity and its tag keeps the record consistent. */
  lemma {:induction false} PutKeepsConsistent(g: Grid, width: nat, height: nat, t: Tag, cells: seq<Cell>, c: Cell)
    requires Shaped(g, width, height) && Consistent(g, width, height, t, cells)
    ensures Consistent(Put(g, width, height, t, c.x, c.y), width, height, t, cells + [c])
  {
    var g' := Put(g, width, height, t, c.x, c.y);
    forall x, y | InBounds(width, height, x, y)
      ensures multiset(g'[x][y])[t] == multiset(cells + [c])[Cell(x, y)]
    {
      assert multiset(g[x][y])[t] == multiset(cells)[Cell(x, y)];
      if Cell(x, y) == c {
        assert g'[x][y] == g[x][y] + [t];
      }
    }
  }

  /** One cell of TakeKeepsConsistent: the count of `t` on (x, y) and the
      number of entities on (x, y) drop together, or neither does. */
  lemma TakeKeepsCount(g: Grid, width: nat, height: nat, t: Tag, cells: seq<Cell>, c: Cell, x: int, y: int)
    requires Shaped(g, width, height) && InBounds(width, height, x, y)
    requires multiset(g[x][y])[t] == multiset(cells)[Cell(x, y)]
    ensures multiset(Take(g, width, height, t, c.x, c.y)[x][y])[t] == multiset(RemoveFirst(cells, c))[Cell(x, y)]
  {
    RemoveFirstMeans(cells, c);
    if Cell(x, y) == c {
      RemoveFirstMeans(g[x][y], t);
    }
  }

  /** Despawning: erasing the first entity on `c` and one tag from `c` keeps the
      record consistent. */
  lemma {:induction false} TakeKeepsConsistent(g: Grid, width: nat, height: nat, t: Tag, cells: seq<Cell>, c: Cell)
    requires Shaped(g, width, height) && Consistent(g, width, height, t, cells)
    ensures Consistent(Take(g, width, height, t, c.x, c.y), width, height, t, RemoveFirst(cells, c))
  {
    forall x, y | InBounds(width, height, x, y)
      ensures multiset(Take(g, width, height, t, c.x, c.y)[x][y])[t] == multiset(RemoveFirst(cells, c))[Cell(x, y)]
    {
      TakeKeepsCount(g, width, height, t, cells, c, x, y);
    }
  }

  /** Only how many entities stand on each cell matters, not their order. */
  lemma ConsistentUpToOrder(g: Grid, width: nat, height: nat, t: Tag, a: seq<Cell>, b: seq<Cell>)
    requires Shaped(g, width, height) && multiset(a) == multiset(b)
    ensures Consistent(g, width, height, t, a) <==> Consistent(g, width, height, t, b)
  {
  }

  /** Moving entity k: untagging its old cell, then tagging the new one, keeps
      the record consistent with the entity's new position. */
  lemma {:induction false} MoveKeepsConsistent(g: Grid, width: nat, height: nat, t: Tag, cells: seq<Cell>, k: nat, next: Cell)
    requires Shaped(g, width, height) && Consistent(g, width, height, t, cells)
    requires k < |cells|
    ensures var c := cells[k];
      Consistent(Put(Take(g, width, height, t, c.x, c.y), width, height, t, next.x, next.y), width, height, t, cells[k := next])
  {
    var c := cells[k];
    var g1 := Take(g, width, height, t, c.x, c.y);
    TakeKeepsConsistent(g, width, height, t, cells, c);
    RemoveFirstMeans(cells, c);
    PutKeepsConsistent(g1, width, height, t, RemoveFirst(cells, c), next);
    assert cells == cells[..k] + [c] + cells[k + 1..];
    assert cells[k := next] == cells[..k] + [next] + cells[k + 1..];
    ConsistentUpToOrder(Put(g1, width, height, t, next.x, next.y), width, height, t,
      RemoveFirst(cells, c) + [next], cells[k := next]);
  }

  /** A move on its own terms, whatever the population says: when both
      cells are in bounds and the old cell holds the tag, the untag-then-tag
      sequence takes one tag off the old cell and puts one on the new cell,
      so a move within one cell keeps that cell's count, and no other cell
      changes. This holds for the dead agent's move too. */
  lemma {:induction false} MoveShiftsOneTag(g: Grid, width: nat, height: nat, t: Tag, c: Cell, next: Cell)
    requires Shaped(g, width, height)
    requires InBounds(width, height, c.x, c.y) && InBounds(width, height, next.x, next.y)
    requires t in g[c.x][c.y]
    ensures var g2 := Put(Take(g, width, height, t, c.x, c.y), width, height, t, next.x, next.y);
      && (c != next ==>
            && multiset(g2[c.x][c.y])[t] == multiset(g[c.x][c.y])[t] - 1
            && multiset(g2[next.x][next.y])[t] == multiset(g[next.x][next.y])[t] + 1)
      && (c == next ==> multiset(g2[c.x][c.y])[t] == multiset(g[c.x][c.y])[t])
      && (forall x, y :: 0 <= x < width && 0 <= y < height && Cell(x, y) != c && Cell(x, y) != next
            ==> g2[x][y] == g[x][y])
  {
    RemoveFirstMeans(g[c.x][c.y], t);
  }

  /** An entity already erased from the list that still moves (untag its old
      cell, tag the new one) leaves a tag that no entity accounts for: when
      it leaves for another in-bounds cell, even with listed entities still on
      its old cell (a newborn, say), or when it stays on a cell that no
      listed entity occupies. */
  lemma {:induction false} MoveAfterEraseLeaks(g: Grid, width: nat, height: nat, t: Tag, cells: seq<Cell>, c: Cell, next: Cell)
    requires Shaped(g, width, height) && Consistent(g, width, height, t, cells)
    requires InBounds(width, height, next.x, next.y) && (next != c || c !in cells)
    ensures !Consistent(Put(Take(g, width, height, t, c.x, c.y), width, height, t, next.x, next.y), width, height, t, cells)
  {
    var g1 := Take(g, width, height, t, c.x, c.y);
    var g2 := Put(g1, width, height, t, next.x, next.y);
    assert multiset(g[next.x][next.y])[t] == multiset(cells)[next];
    if next == c {
      assert multiset(cells)[c] == 0;
      assert t !in g[c.x][c.y];
      RemoveFirstMeans(g[c.x][c.y], t);
    }
    assert g1[next.x][next.y] == g[next.x][next.y];
    assert g2[next.x][next.y] == g1[next.x][next.y] + [t];
    assert multiset(g2[next.x][next.y])[t] == multiset(cells)[next] + 1;
  }

  // ---------------------------------------------------------------------------
  // The mutable grid

  /** The global position blueprint: one tag list per cell, in insertion order. */
  class Blueprint {
    const width: nat
    const height: nat
    const cells: array2<seq<Tag>>
    ghost var grid: Grid

    ghost predicate Valid()
      reads this, cells
    {
      && cells.Length0 == width && cells.Length1 == height
      && Shaped(grid, width, height)
      && forall x, y :: 0 <= x < width && 0 <= y < height ==> cells[x, y] == grid[x][y]
    }

    constructor (width: nat, height: nat)
      ensures Valid() && fresh(cells)
      ensures this.width == width && this.height == height
      ensures grid == EmptyGrid(width, height)
    {
      this.width, this.height := width, height;
      cells := new seq<Tag>[width, height]((x, y) => []);
      grid := EmptyGrid(width, height);
    }

    /** addToPositionBlueprint: append `t` to the list of (x, y) when the
        cell is in bounds; do nothing otherwise. */
    method Add(t: Tag, x: int, y: int)
      requires Valid()
      modifies this, cells
      ensures Valid()
      ensures grid == Put(old(grid), width, height, t, x, y)
    {
      if InBounds(width, height, x, y) {
        Store(x, y, cells[x, y] + [t]);
      }
    }

    /** checkPositionInBlueprint: whether (x, y) is in bounds and its list
        holds `t`; the list is scanned front to back. */
    function Check(t: Tag, x: int, y: int): (found: bool)
      reads this, cells
      requires Valid()
      ensures found <==> Holds(grid, width, height, t, x, y)
    {
      InBounds(width, height, x, y) && (FirstIndexMeans(cells[x, y], t); FirstIndex(cells[x, y], t) != -1)
    }

    /** removePositionFromBlueprint: erase the first `t` from the list of
        (x, y), keeping the other tags in order; nothing happens when the
        cell is out of bounds or holds no `t`. */
    method Remove(t: Tag, x: int, y: int)
      requires Valid()
      modifies this, cells
      ensures Valid()
      ensures grid == Take(old(grid), width, height, t, x, y)
    {
      if InBounds(width, height, x, y) {
        var existsAt := Locate(t, x, y);
        var bucket := cells[x, y];
        if existsAt != -1 {
          Store(x, y, bucket[..existsAt] + bucket[existsAt + 1..]);
        } else {
          assert grid[x][y := bucket] == grid[x];
        }
      }
    }

    /** The search of removePositionFromBlueprint: the index of the first
        `t` in the list of the in-bounds cell (x, y), -1 when there is none. */
    method Locate(t: Tag, x: int, y: int) returns (existsAt: int)
      requires Valid() && InBounds(width, height, x, y)
      ensures existsAt == FirstIndex(cells[x, y], t)
    {
      var bucket := cells[x, y];
      existsAt := -1;
      var i := 0;
      while i < |bucket|
        invariant 0 <= i <= |bucket|
        invariant t !in bucket[..i]
      {
        if bucket[i] == t {
          existsAt := i;
          FirstIndexIs(bucket, t, i);
          return;
        }
        i := i + 1;
      }
      assert bucket[..i] == bucket;
      FirstIndexMeans(bucket, t);
    }

    /** Replace the list of the in-bounds cell (x, y), in the array and in
        the grid alike. */
    method Store(x: int, y: int, bucket: seq<Tag>)
      requires Valid() && InBounds(width, height, x, y)
      modifies this, cells
      ensures Valid()
      ensures grid == old(grid)[x := old(grid)[x][y := bucket]]
    {
      cells[x, y] := bucket;
      grid := grid[x := grid[x][y := bucket]];
    }
  }
}
