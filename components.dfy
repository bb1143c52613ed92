/** The component records the three systems operate on: the player
    record (position, facing, owner key, liveness) and the tile record
    (a fixed-size grid of cells). Both are stored in accounts that the
    systems update in place, so each is a class; the value a system
    returns is a copy of the stored record, so each also has a datatype
    snapshot. */
module Components {

  /** Rust's `i64` and `u64`, with their exact ranges. */
  newtype i64 = v: int | InI64(v)
  newtype u64 = v: int | 0 <= v < 0x1_0000_0000_0000_0000

  predicate InI64(v: int) {
    -0x8000_0000_0000_0000 <= v < 0x8000_0000_0000_0000
  }

  /** The direction a player faces. */
  datatype Facing = Left | Right | Up | Down

  /** Exactly 32 bytes. */
  type Bytes32 = s: seq<bv8> | |s| == 32 witness seq(32, _ => 0 as bv8)

  /** A public key: the 32 bytes that key parsing produces. */
  datatype Pubkey = Pubkey(bytes: Bytes32)

  /** A grid cell; `Empty` is the zeroed (freshly initialised) value. */
  datatype Cell = Empty | Tree

  /** A copy of a stored player record. */
  datatype PlayerRecord = PlayerRecord(x: i64, y: i64, facing: Facing, playerId: Pubkey, alive: bool)

  /** The stored player account. */
  class Player {
    var x: i64
    var y: i64
    var facing: Facing
    var playerId: Pubkey
    var alive: bool

    /** Loads an account holding the record `r`. */
    constructor (r: PlayerRecord)
      ensures Snapshot() == r
    {
      x, y, facing, playerId, alive := r.x, r.y, r.facing, r.playerId, r.alive;
    }

    /** The record currently stored, as a value. */
    function Snapshot(): PlayerRecord
      reads this
    {
      PlayerRecord(x, y, facing, playerId, alive)
    }
  }

  /** A grid as a value: a sequence of rows. */
  type Grid = seq<seq<Cell>>

  /** Every row of `g` has `cols` cells. */
  predicate Rectangular(g: Grid, cols: nat) {
    forall i :: 0 <= i < |g| ==> |g[i]| == cols
  }

  /** The grid held by a two-dimensional array, row by row. */
  function GridOf(a: array2<Cell>): (g: Grid)
    reads a
    ensures |g| == a.Length0 && Rectangular(g, a.Length1)
    ensures forall i, j :: 0 <= i < a.Length0 && 0 <= j < a.Length1 ==> g[i][j] == a[i, j]
  {
    seq(a.Length0, i reads a => seq(a.Length1, j reads a => if 0 <= i < a.Length0 && 0 <= j < a.Length1 then a[i, j] else Empty))
  }

  /** A copy of a stored tile record. */
  datatype TileRecord = TileRecord(x: u64, y: u64, cells: Grid)

  /** The stored tile account: its coordinates and its fixed-size grid. */
  class Tile {
    var x: u64
    var y: u64
    const cells: array2<Cell>

    /** A tile at (`x`, `y`) whose grid is freshly zeroed, so every cell is `Empty`. */
    constructor (x: u64, y: u64, rows: nat, cols: nat)
      ensures fresh(cells) && cells.Length0 == rows && cells.Length1 == cols
      ensures Snapshot().x == x && Snapshot().y == y
      ensures forall i, j :: 0 <= i < rows && 0 <= j < cols ==> cells[i, j] == Empty
    {
      this.x, this.y := x, y;
      cells := new Cell[rows, cols]((i, j) => Empty);
    }

    /** The record currently stored, as a value. */
    function Snapshot(): TileRecord
      reads this, cells
    {
      TileRecord(x, y, GridOf(cells))
    }
  }
}
