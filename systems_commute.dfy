/** How the player-update system and the movement system interact when
    both are applied to the same player record in one batch. */
module SystemsCommute {
  import opened Components
  import SystemMovement
  import UpdatePlayer

  /** The update and a move touch disjoint fields, so they commute: moving
      then updating gives the same record as updating then moving. */
  lemma UpdateCommutesWithMove(p: PlayerRecord, d: SystemMovement.Direction, args: UpdatePlayer.Args, parse: UpdatePlayer.KeyParser)
    requires SystemMovement.CanMove(p, d)
    ensures UpdatePlayer.Updated(p, args, parse).Ok? ==> SystemMovement.CanMove(UpdatePlayer.Updated(p, args, parse).value, d)
    ensures UpdatePlayer.Updated(p, args, parse).Ok? ==>
      UpdatePlayer.Updated(SystemMovement.Moved(p, d), args, parse) == UpdatePlayer.Ok(SystemMovement.Moved(UpdatePlayer.Updated(p, args, parse).value, d))
    ensures UpdatePlayer.Updated(p, args, parse).Err? ==> UpdatePlayer.Updated(SystemMovement.Moved(p, d), args, parse) == UpdatePlayer.Updated(p, args, parse)
  {
  }
}
