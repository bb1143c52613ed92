# Chainy system programs, modelled in Dafny

Chainy is a small game built on an entity-component-system runtime. Game
state lives in component accounts: a *player* component and a *tile*
component. Three *system* programs change those components in place:

- the **movement system** turns the player towards a direction (Left,
  Right, Up, Down) and shifts its position by a fixed step of 3;
- the **tile-update system** overwrites one cell of the tile's
  fixed-size grid;
- the **player-update system** parses a public key and, if that works,
  stores it as the player's key together with an `alive` flag.

Each system gets one component account to read and write, plus its
already decoded arguments. It returns a copy of the updated record.

Layout:

- `components.dfy` (module `Components`): Rust's `i64`/`u64` as newtypes;
  `Facing`, `Pubkey` and `Cell`; the stored accounts as classes `Player`
  and `Tile`, each with a `Snapshot()` that gives the record as a value
  (`PlayerRecord`, `TileRecord`). The grid is an `array2<Cell>`.
- `system_movement.dfy` (module `SystemMovement`): the step, the
  displacement and facing of each direction, the move as a function on
  records, sequences of moves, and the in-place `Execute`.
- `update_tile.dfy` (module `UpdateTile`): the `as usize` cast, the one-cell
  grid write as a function, its algebra, and the in-place `Execute`.
- `update_player.dfy` (module `UpdatePlayer`): the key parser as a
  function parameter, the update as a function on records, and the
  in-place `Execute`.
- `systems_commute.dfy` (module `SystemsCommute`): how a player update
  and a move interact when both run on the same player.

Each `Execute` is a method that modifies the account object. Its
`ensures` tie the new snapshot to a pure function of the old one
(`Moved`, `Write`, `Updated`). The lemmas about those functions carry
the properties of the system.

The record types are wider than the component structs declared in
`programs/player/src/lib.rs` and `programs/tile/src/lib.rs`. The `Player` struct at `programs/player/src/lib.rs:14-17`
declares only `x, y: i64`. But the movement system writes `facing`, and
the player-update system writes `player_id` and `alive`. So
`PlayerRecord` has all five fields. In the same way, the `Tile` struct at
`programs/tile/src/lib.rs:14-17` declares only `x, y: u64`, while the
tile-update system writes `grid.cells[x][y]`. So `TileRecord` has `x`,
`y` and the grid. The grid dimensions and the full list of `Cell`
variants come from the full tile crate, which is not part of this model. The model keeps the dimensions as
parameters and has `Cell = Empty | Tree`, where `Empty` is the zeroed
value. No system checks the value of a `Cell`.

Panics abort the whole instruction, and the runtime then discards every
write it made. The model writes them as preconditions of `Execute`:

- movement: `CanMove` says both `+=` stay within `i64`;
- tile update: the cast indices must be within the grid's bounds.

`CanMoveAllIff` and `IndexInBoundsIff` say what these preconditions
mean. The one error the source does return, a failed key parse, is an
explicit `Err` result: a failed key parse returns
`ProgramError::Custom` carrying the parse error's code.

## Model

| member | source | states |
|---|---|---|
| SystemMovement.Displacement | programs/system-movement/src/lib.rs:16-23 | each move changes exactly one coordinate, and by exactly the fixed step 3 (abs(dx) + abs(dy) = 3) |
| SystemMovement.FacingFor | programs/system-movement/src/lib.rs:25-38 | the new facing points the way the move shifts the position: Left iff dx < 0, Right iff dx > 0, Up iff dy > 0, Down iff dy < 0 |
| SystemMovement.Opposite | programs/system-movement/src/lib.rs:18-23 | Left/Right and Up/Down have exactly negated displacements |
| SystemMovement.Moved | programs/system-movement/src/lib.rs:18-41 | one move sets facing to the direction's facing whatever it was; key and alive unchanged; exactly one coordinate changes, by 3 |
| SystemMovement.MovedByDirection | programs/system-movement/src/lib.rs:18-41 | Left: x - 3, y same; Right: x + 3, y same; Up: y + 3, x same; Down: y - 3, x same |
| SystemMovement.OppositeRestores | programs/system-movement/src/lib.rs:18-41 | a move followed by its opposite (Left then Right, Up then Down, ...) never overflows and restores x and y |
| SystemMovement.MovedAllSum | programs/system-movement/src/lib.rs:40-41 | moves applied in order compose additively: final x/y = start + sum of each move's dx/dy; facing = last move's; key and alive unchanged |
| SystemMovement.PrefixesInRangeStep | programs/system-movement/src/lib.rs:40-41 | all positions along a move list are in range iff the start is and all positions along the rest from the first move's result are |
| SystemMovement.CanMoveAllIff | programs/system-movement/src/lib.rs:40-41 | a move sequence avoids overflow exactly when every intermediate position (start + prefix sums) lies within i64 |
| SystemMovement.RightThenUp | programs/system-movement/src/lib.rs:40-41 | Right then Up in one batch: both x and y end strictly larger, so both changes are visible |
| SystemMovement.Execute | programs/system-movement/src/lib.rs:12-44 | in place: needs x + dx and y + dy within i64; the stored record becomes Moved(old record, direction); the returned copy equals the stored record |
| UpdateTile.AsUsize | programs/update-tile/src/lib.rs:13 | the i64 to usize cast keeps the 64-bit pattern: the result is the unique u64 congruent to v modulo 2^64 |
| UpdateTile.IndexInBoundsIff | programs/update-tile/src/lib.rs:13 | for any grid size up to 2^63, the cast index is in bounds iff 0 <= coordinate < size, so a negative coordinate always fails the bounds check |
| UpdateTile.Write | programs/update-tile/src/lib.rs:13 | after a write the grid keeps its shape, holds the new cell at [x][y], and has every other cell unchanged |
| UpdateTile.WriteCharacterised | programs/update-tile/src/lib.rs:13 | those three facts determine the written grid uniquely |
| UpdateTile.WriteIdempotent | programs/update-tile/src/lib.rs:13 | writing the same (x, y, cell) twice gives the same grid as writing it once |
| UpdateTile.LastWriteWins | programs/update-tile/src/lib.rs:13 | two writes to the same cell leave the last value |
| UpdateTile.WritesCommute | programs/update-tile/src/lib.rs:13 | writes to distinct cells commute |
| UpdateTile.PlantTreeScenario | programs/update-tile/src/lib.rs:13 | in an all-Empty grid, planting a Tree at (0, 1) gives Tree at (0, 1), and (0, 0) stays Empty |
| UpdateTile.Execute | programs/update-tile/src/lib.rs:11-15 | in place: needs both cast indices within the grid's bounds; afterwards cells[x][y] == cell and every other cell is unchanged; the snapshot is Write of the old one; the returned tile equals the stored tile |
| UpdatePlayer.ErrorCode | programs/update-player/src/lib.rs:18-20 | the `err as u32` code: 0 exactly for WrongSize, 1 exactly for Invalid |
| UpdatePlayer.Updated | programs/update-player/src/lib.rs:17-25 | error iff the key fails to parse, and then the error is Custom(code of the parse error); on success player_id is the parsed key, alive is args.alive, and x, y and facing are unchanged |
| UpdatePlayer.UpdatedIdempotent | programs/update-player/src/lib.rs:22-23 | applying the same arguments twice gives the same record as applying them once |
| UpdatePlayer.UpdatedOverwrites | programs/update-player/src/lib.rs:22-23 | the result does not depend on the key and flag stored before |
| SystemsCommute.UpdateCommutesWithMove | programs/update-player/src/lib.rs:22-23 | a player update and a move touch disjoint fields and commute, and a failed update fails the same way after a move |
| UpdatePlayer.Execute | programs/update-player/src/lib.rs:14-26 | in place: the result is Updated(old record); on error the stored player is unchanged (the parse comes before any assignment); on success the returned copy equals the stored record; x, y and facing are never changed |
| Components.Player.constructor | programs/player/src/lib.rs:14-17 | loading a player account gives a stored record equal to the given one |
| Components.Tile.constructor | programs/tile/src/lib.rs:14-17 | a tile account at (x, y) with the given grid dimensions and every cell Empty (the zeroed value) |

## Left out

- Argument decoding (`parse_args`, from the `bolt_lang` framework): a foreign call. Each system's `Args` is taken as already decoded.
- Key parsing (`Pubkey::from_str`, from `solana_program`): a foreign call. It is the parameter `parse: string -> Result<Pubkey, ParsePubkeyError>`, and the model assumes nothing about it except that it is a function. The codes 0 (`WrongSize`) and 1 (`Invalid`) follow the declaration order of that library's `ParsePubkeyError`. That library is not part of this model.
- The commented-out clock-based step (`programs/system-movement/src/lib.rs:15-16`): dead code, and a clock read is I/O.
- Panics are preconditions of `Execute`, not outcomes: the i64 overflow of `+=` in movement (a checked-overflow build aborts the instruction), and an out-of-bounds index in tile update. The instruction-level rollback after a panic is done by the runtime and is not modelled.
- SystemMovement.Execute: needs both coordinates to stay within i64. It does not model the state a panicking instruction would leave, because the runtime discards it. No build profile is among the files this model covers: the precondition assumes `overflow-checks = true` (the usual Anchor workspace setting); with checks off, `+=` wraps in two's complement, and that case is not modelled.
- UpdateTile.Execute: needs both indices in bounds, for the same reason.
- The runtime protocol around the systems: registry, world and entity allocation, address derivation, component initialisation, the "apply" dispatch and its ownership check, and batch atomicity. All of it lives in the external `bolt-sdk` / `bolt_lang` framework and is not in this repository. A batch is modelled only as moves in order (`MovedAll`).
- The framework macros (`#[system]`, `#[component]`, `#[account]`, `declare_id!`) and the account-ownership checks: runtime plumbing.
- `tests/chainy.ts`: it builds and sends transactions to a live cluster through `bolt-sdk` helpers, which are not part of this model.
- The byte layout of the stored accounts, the exact grid size and the `Cell` variants: the full component crates that define them are not part of this model.
