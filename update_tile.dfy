/** The tile-update system: it overwrites one cell of the tile's grid. */
module UpdateTile {
  import opened Components

  /** The decoded arguments: the row, the column and the new cell. */
  datatype Args = Args(x: i64, y: i64, cell: Cell)

  /** Rust's `v as usize` for an `i64` on a 64-bit target: the same bits
      read as an unsigned number, so a negative value wraps to 2^64 + v.
      Since `r` is a `u64`, congruence modulo 2^64 fixes it uniquely. */
  function AsUsize(v: i64): (r: u64)
    ensures (r as int - v as int) % 0x1_0000_0000_0000_0000 == 0
  {
    assert InI64(v as int);
    if v >= 0 then v as u64 else (v as int + 0x1_0000_0000_0000_0000) as u64
  }

  /** The cast index is in bounds exactly when the coordinate is in
      `0 .. n`: a negative coordinate becomes an index of at least 2^63,
      beyond any grid an account can hold. */
  lemma IndexInBoundsIff(v: i64, n: nat)
    requires n <= 0x8000_0000_0000_0000
    ensures AsUsize(v) as int < n <==> 0 <= v as int < n
  {
    assert InI64(v as int);
  }

  /** The grid `g` with the cell at row `i`, column `j` replaced by `c`. */
  function Write(g: Grid, i: nat, j: nat, c: Cell): (r: Grid)
    requires i < |g| && j < |g[i]|
    ensures |r| == |g| && forall a :: 0 <= a < |g| ==> |r[a]| == |g[a]|
    ensures r[i][j] == c
    ensures forall a, b :: 0 <= a < |g| && 0 <= b < |g[a]| && (a != i || b != j) ==> r[a][b] == g[a][b]
  {
    g[i := g[i][j := c]]
  }

  /** `Write` is the only grid that has the shape of `g`, holds `c` at
      (`i`, `j`) and agrees with `g` everywhere else. */
  lemma WriteCharacterised(g: Grid, i: nat, j: nat, c: Cell, r: Grid)
    requires i < |g| && j < |g[i]|
    requires |r| == |g| && forall a :: 0 <= a < |g| ==> |r[a]| == |g[a]|
    requires r[i][j] == c
    requires forall a, b :: 0 <= a < |g| && 0 <= b < |g[a]| && (a != i || b != j) ==> r[a][b] == g[a][b]
    ensures r == Write(g, i, j, c)
  {
    var w := Write(g, i, j, c);
    forall a | 0 <= a < |g|
      ensures r[a] == w[a]
    {
      assert |r[a]| == |w[a]|;
      forall b | 0 <= b < |g[a]|
        ensures r[a][b] == w[a][b]
      {
      }
    }
  }

  /** Writing the same cell twice leaves the grid of writing it once. */
  lemma WriteIdempotent(g: Grid, i: nat, j: nat, c: Cell)
    requires i < |g| && j < |g[i]|
    ensures Write(Write(g, i, j, c), i, j, c) == Write(g, i, j, c)
  {
    var once := Write(g, i, j, c);
    WriteCharacterised(g, i, j, c, Write(once, i, j, c));
  }

  /** Of two writes to the same cell, the last one wins. */
  lemma LastWriteWins(g: Grid, i: nat, j: nat, c: Cell, c': Cell)
    requires i < |g| && j < |g[i]|
    ensures Write(Write(g, i, j, c), i, j, c') == Write(g, i, j, c')
  {
    var first := Write(g, i, j, c);
    WriteCharacterised(g, i, j, c', Write(first, i, j, c'));
  }

  /** Writes to distinct cells commute. */
  lemma WritesCommute(g: Grid, i: nat, j: nat, c: Cell, i': nat, j': nat, c': Cell)
    requires i < |g| && j < |g[i]| && i' < |g| && j' < |g[i']|
    requires i != i' || j != j'
    ensures Write(Write(g, i, j, c), i', j', c') == Write(Write(g, i', j', c'), i, j, c)
  {
    var left := Write(Write(g, i, j, c), i', j', c');
    var g' := Write(g, i', j', c');
    WriteCharacterised(g', i, j, c, left);
  }

  /** Planting a tree at (0, 1) in a freshly initialised grid: the cell at
      (0, 1) is then `Tree` and the cell at (0, 0) is still `Empty`. */
  lemma PlantTreeScenario(g: Grid)
    requires |g| >= 1 && |g[0]| >= 2
    requires forall a, b :: 0 <= a < |g| && 0 <= b < |g[a]| ==> g[a][b] == Empty
    ensures Write(g, 0, 1, Tree)[0][1] == Tree
    ensures Write(g, 0, 1, Tree)[0][0] == Empty
  {
  }

  /** Stores `args.cell` at row `args.x`, column `args.y` of the stored
      tile's grid and returns a copy of the updated tile. The precondition
      is the bounds check of the indexing after the `as usize` casts; see
      `IndexInBoundsIff` for what it means for the coordinates. */
  method Execute(tile: Tile, args: Args) returns (r: TileRecord)
    requires AsUsize(args.x) as int < tile.cells.Length0
    requires AsUsize(args.y) as int < tile.cells.Length1
    modifies tile.cells
    ensures tile.cells[AsUsize(args.x) as int, AsUsize(args.y) as int] == args.cell
    ensures forall a, b ::
      0 <= a < tile.cells.Length0 && 0 <= b < tile.cells.Length1 && (a != AsUsize(args.x) as int || b != AsUsize(args.y) as int)
      ==> tile.cells[a, b] == old(tile.cells[a, b])
    ensures tile.Snapshot() == old(tile.Snapshot()).(cells := Write(old(tile.Snapshot()).cells, AsUsize(args.x) as nat, AsUsize(args.y) as nat, args.cell))
    ensures r == tile.Snapshot()
  {
    ghost var before := tile.Snapshot();
    var i, j := AsUsize(args.x) as int, AsUsize(args.y) as int;
    tile.cells[i, j] := args.cell;
    r := tile.Snapshot();
    WriteCharacterised(before.cells, i, j, args.cell, r.cells);
  }
}
