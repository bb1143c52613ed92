/** The movement system: one move turns the player towards a direction
    and shifts its position by a fixed step in that direction. */
module SystemMovement {
  import opened Components

  datatype Direction = Left | Right | Up | Down

  /** The decoded arguments of one move. */
  datatype Args = Args(direction: Direction)

  /** The step size of every move, whatever the state or the arguments. */
  const Delta: i64 := 3

  function Abs(v: int): nat {
    if v < 0 then -v else v
  }

  /** How far one move shifts the position: exactly one coordinate
      changes, and it changes by `Delta`. */
  function Displacement(d: Direction): (r: (i64, i64))
    ensures Abs(r.0 as int) + Abs(r.1 as int) == Delta as int
    ensures (r.0 == 0) != (r.1 == 0)
  {
    match d
    case Left => (-Delta, 0)
    case Right => (Delta, 0)
    case Up => (0, Delta)
    case Down => (0, -Delta)
  }

  /** The facing a move leaves the player with: it points the way the
      move shifts the position. */
  function FacingFor(d: Direction): (f: Facing)
    ensures (f == Facing.Left) == (Displacement(d).0 < 0)
    ensures (f == Facing.Right) == (Displacement(d).0 > 0)
    ensures (f == Facing.Up) == (Displacement(d).1 > 0)
    ensures (f == Facing.Down) == (Displacement(d).1 < 0)
  {
    match d
    case Down => Facing.Down
    case Up => Facing.Up
    case Right => Facing.Right
    case Left => Facing.Left
  }

  /** The direction that undoes a move in direction `d`. */
  function Opposite(d: Direction): (r: Direction)
    ensures Displacement(r).0 == -Displacement(d).0
    ensures Displacement(r).1 == -Displacement(d).1
  {
    match d
    case Left => Direction.Right
    case Right => Direction.Left
    case Up => Direction.Down
    case Down => Direction.Up
  }

  /** A move in direction `d` from `p` keeps both coordinates within
      `i64`; otherwise the `+=` overflows and the program aborts. */
  predicate CanMove(p: PlayerRecord, d: Direction) {
    InI64(p.x as int + Displacement(d).0 as int) && InI64(p.y as int + Displacement(d).1 as int)
  }

  /** The record after one move. */
  function Moved(p: PlayerRecord, d: Direction): (r: PlayerRecord)
    requires CanMove(p, d)
    ensures r.facing == FacingFor(d)
    ensures r.playerId == p.playerId && r.alive == p.alive
    ensures Abs(r.x as int - p.x as int) + Abs(r.y as int - p.y as int) == Delta as int
    ensures (r.x == p.x) != (r.y == p.y)
  {
    var (dx, dy) := Displacement(d);
    p.(facing := FacingFor(d), x := p.x + dx, y := p.y + dy)
  }

  /** Every move of `ds`, applied in order from `p`, stays within range. */
  predicate CanMoveAll(p: PlayerRecord, ds: seq<Direction>)
    decreases |ds|
  {
    ds == [] || (CanMove(p, ds[0]) && CanMoveAll(Moved(p, ds[0]), ds[1..]))
  }

  /** The record after the moves of `ds` in order, each seeing the record
      the previous one left. */
  function MovedAll(p: PlayerRecord, ds: seq<Direction>): PlayerRecord
    requires CanMoveAll(p, ds)
    decreases |ds|
  {
    if ds == [] then p else MovedAll(Moved(p, ds[0]), ds[1..])
  }

  /** The total horizontal and vertical displacement of `ds`. */
  function SumDx(ds: seq<Direction>): int
    decreases |ds|
  {
    if ds == [] then 0 else Displacement(ds[0]).0 as int + SumDx(ds[1..])
  }

  function SumDy(ds: seq<Direction>): int
    decreases |ds|
  {
    if ds == [] then 0 else Displacement(ds[0]).1 as int + SumDy(ds[1..])
  }

  /** One move, as the four cases of the direction. */
  lemma MovedByDirection(p: PlayerRecord, d: Direction)
    requires CanMove(p, d)
    ensures d == Direction.Left ==> Moved(p, d).x as int == p.x as int - 3 && Moved(p, d).y == p.y
    ensures d == Direction.Right ==> Moved(p, d).x as int == p.x as int + 3 && Moved(p, d).y == p.y
    ensures d == Direction.Up ==> Moved(p, d).x == p.x && Moved(p, d).y as int == p.y as int + 3
    ensures d == Direction.Down ==> Moved(p, d).x == p.x && Moved(p, d).y as int == p.y as int - 3
  {
  }

  /** A move followed by the opposite move is always in range and puts
      the player back where it was (Left then Right, Up then Down, ...). */
  lemma OppositeRestores(p: PlayerRecord, d: Direction)
    requires CanMove(p, d)
    ensures CanMoveAll(p, [d, Opposite(d)])
    ensures MovedAll(p, [d, Opposite(d)]).x == p.x
    ensures MovedAll(p, [d, Opposite(d)]).y == p.y
    ensures MovedAll(p, [d, Opposite(d)]).facing == FacingFor(Opposite(d))
  {
    var q := Moved(p, d);
    assert CanMove(q, Opposite(d));
    assert [d, Opposite(d)][1..] == [Opposite(d)];
    assert [Opposite(d)][1..] == [];
    assert MovedAll(p, [d, Opposite(d)]) == MovedAll(q, [Opposite(d)]) == Moved(q, Opposite(d));
  }

  /** Moves compose additively: after `ds` the position is the start plus
      the sum of each move's displacement, the facing is that of the last
      move, and the key and liveness are untouched. */
  lemma {:induction false} MovedAllSum(p: PlayerRecord, ds: seq<Direction>)
    requires CanMoveAll(p, ds)
    ensures MovedAll(p, ds).x as int == p.x as int + SumDx(ds)
    ensures MovedAll(p, ds).y as int == p.y as int + SumDy(ds)
    ensures MovedAll(p, ds).facing == if ds == [] then p.facing else FacingFor(ds[|ds| - 1])
    ensures MovedAll(p, ds).playerId == p.playerId && MovedAll(p, ds).alive == p.alive
    decreases |ds|
  {
    if ds != [] {
      MovedAllSum(Moved(p, ds[0]), ds[1..]);
      if |ds| > 1 {
        assert ds[1..][|ds[1..]| - 1] == ds[|ds| - 1];
      }
    }
  }

  /** Every position reached along `ds` from (`x`, `y`), the start
      included, lies within `i64`. */
  predicate PrefixesInRange(x: int, y: int, ds: seq<Direction>) {
    forall k :: 0 <= k <= |ds| ==> InI64(x + SumDx(ds[..k])) && InI64(y + SumDy(ds[..k]))
  }

  /** `PrefixesInRange` unfolded by one move. */
  lemma PrefixesInRangeStep(x: int, y: int, ds: seq<Direction>)
    ensures PrefixesInRange(x, y, ds) <==>
      InI64(x) && InI64(y) &&
      (ds != [] ==> PrefixesInRange(x + Displacement(ds[0]).0 as int, y + Displacement(ds[0]).1 as int, ds[1..]))
  {
    assert ds[..0] == [];
    if ds != [] {
      var x', y' := x + Displacement(ds[0]).0 as int, y + Displacement(ds[0]).1 as int;
      forall k | 0 <= k < |ds|
        ensures x + SumDx(ds[..k + 1]) == x' + SumDx(ds[1..][..k])
        ensures y + SumDy(ds[..k + 1]) == y' + SumDy(ds[1..][..k])
      {
        assert ds[..k + 1][1..] == ds[1..][..k];
      }
      if PrefixesInRange(x, y, ds) {
        forall k | 0 <= k <= |ds[1..]|
          ensures InI64(x' + SumDx(ds[1..][..k])) && InI64(y' + SumDy(ds[1..][..k]))
        {
          assert InI64(x + SumDx(ds[..k + 1])) && InI64(y + SumDy(ds[..k + 1]));
        }
      }
      if InI64(x) && InI64(y) && PrefixesInRange(x', y', ds[1..]) {
        forall k | 0 <= k <= |ds|
          ensures InI64(x + SumDx(ds[..k])) && InI64(y + SumDy(ds[..k]))
        {
          if k > 0 {
            assert InI64(x' + SumDx(ds[1..][..k - 1])) && InI64(y' + SumDy(ds[1..][..k - 1]));
          }
        }
      }
    }
  }

  /** The moves of `ds` can be applied from `p` exactly when every
      intermediate position (the start plus the displacement of each
      prefix of `ds`) stays within `i64`. */
  lemma {:induction false} CanMoveAllIff(p: PlayerRecord, ds: seq<Direction>)
    ensures CanMoveAll(p, ds) <==> PrefixesInRange(p.x as int, p.y as int, ds)
    decreases |ds|
  {
    PrefixesInRangeStep(p.x as int, p.y as int, ds);
    if ds != [] {
      var d := ds[0];
      var x', y' := p.x as int + Displacement(d).0 as int, p.y as int + Displacement(d).1 as int;
      if CanMove(p, d) {
        CanMoveAllIff(Moved(p, d), ds[1..]);
      } else {
        PrefixesInRangeStep(x', y', ds[1..]);
      }
    }
  }

  /** Two moves in one batch, Right then Up: both changes are visible, so
      each coordinate ends strictly larger than it started. */
  lemma RightThenUp(p: PlayerRecord)
    requires CanMoveAll(p, [Direction.Right, Direction.Up])
    ensures MovedAll(p, [Direction.Right, Direction.Up]).x > p.x
    ensures MovedAll(p, [Direction.Right, Direction.Up]).y > p.y
  {
    MovedAllSum(p, [Direction.Right, Direction.Up]);
    assert [Direction.Right, Direction.Up][1..] == [Direction.Up];
    assert [Direction.Up][1..] == [];
  }

  /** Moves the stored player in direction `args.direction` and returns a
      copy of the updated record. */
  method Execute(position: Player, args: Args) returns (r: PlayerRecord)
    requires CanMove(position.Snapshot(), args.direction)
    modifies position
    ensures position.Snapshot() == Moved(old(position.Snapshot()), args.direction)
    ensures r == position.Snapshot()
  {
    var (dx, dy) := Displacement(args.direction);
    match args.direction {
      case Down => position.facing := Facing.Down;
      case Up => position.facing := Facing.Up;
      case Right => position.facing := Facing.Right;
      case Left => position.facing := Facing.Left;
    }
    position.x := position.x + dx;
    position.y := position.y + dy;
    r := position.Snapshot();
  }
}
