/** The player-update system: it parses a public key and, when that
    succeeds, stores it as the player's key together with a liveness flag. */
module UpdatePlayer {
  import opened Components

  datatype Result<T, E> = Ok(value: T) | Err(error: E)

  newtype u32 = v: int | 0 <= v < 0x1_0000_0000

  /** Why a key string failed to parse: it decodes to the wrong number
      of bytes, or it is not valid base58. */
  datatype ParsePubkeyError = WrongSize | Invalid

  /** The program error a failed parse is turned into. */
  datatype ProgramError = Custom(code: u32)

  /** The decoded arguments: the key as text and the new liveness flag. */
  datatype Args = Args(publickey: string, alive: bool)

  /** The key parser, supplied by the caller: the model fixes nothing about
      it beyond its being a function of the string. */
  type KeyParser = string -> Result<Pubkey, ParsePubkeyError>

  /** `err as u32`: the declaration-order discriminant of the parse error;
      distinct errors give distinct codes. */
  function ErrorCode(e: ParsePubkeyError): (c: u32)
    ensures (c == 0) == (e == WrongSize)
    ensures (c == 1) == (e == Invalid)
  {
    match e
    case WrongSize => 0
    case Invalid => 1
  }

  /** The outcome of the update on record `p`: an error that carries the
      parse error's code and no record when the key does not parse;
      otherwise the record with the parsed key and the new flag, and every
      other field as it was. */
  function Updated(p: PlayerRecord, args: Args, parse: KeyParser): (r: Result<PlayerRecord, ProgramError>)
    ensures r.Err? <==> parse(args.publickey).Err?
    ensures r.Err? ==> r.error == Custom(ErrorCode(parse(args.publickey).error))
    ensures r.Ok? ==> r.value.playerId == parse(args.publickey).value && r.value.alive == args.alive
    ensures r.Ok? ==> r.value.x == p.x && r.value.y == p.y && r.value.facing == p.facing
  {
    match parse(args.publickey)
    case Err(e) => Err(Custom(ErrorCode(e)))
    case Ok(pk) => Ok(p.(playerId := pk, alive := args.alive))
  }

  /** Applying the same arguments a second time changes nothing more. */
  lemma UpdatedIdempotent(p: PlayerRecord, args: Args, parse: KeyParser)
    requires Updated(p, args, parse).Ok?
    ensures Updated(Updated(p, args, parse).value, args, parse) == Updated(p, args, parse)
  {
  }

  /** The outcome does not depend on the key or flag stored before: two
      records that agree on position and facing give the same record. */
  lemma UpdatedOverwrites(p: PlayerRecord, q: PlayerRecord, args: Args, parse: KeyParser)
    requires p.x == q.x && p.y == q.y && p.facing == q.facing
    ensures Updated(p, args, parse) == Updated(q, args, parse)
  {
  }

  /** Parses `args.publickey`; on failure returns the error before the
      stored player is touched, otherwise stores the key and the flag and
      returns a copy of the updated record. */
  method Execute(player: Player, args: Args, parse: KeyParser) returns (r: Result<PlayerRecord, ProgramError>)
    modifies player
    ensures r == Updated(old(player.Snapshot()), args, parse)
    ensures r.Err? ==> unchanged(player)
    ensures r.Ok? ==> r.value == player.Snapshot()
    ensures player.x == old(player.x) && player.y == old(player.y) && player.facing == old(player.facing)
  {
    var pk;
    match parse(args.publickey) {
      case Err(e) =>
        return Err(Custom(ErrorCode(e)));
      case Ok(k) =>
        pk := k;
    }
    player.playerId := pk;
    player.alive := args.alive;
    return Ok(player.Snapshot());
  }
}
