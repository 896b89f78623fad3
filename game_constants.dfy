/**
 * Board geometry constants: the board is BOARD_WIDTH columns by BOARD_HEIGHT rows,
 * each side has one tower cell and one spawn row. The ability engine and the AI
 * iterate over this rectangle.
 */
module GameConstants {
  import opened Basics

  const BOARD_WIDTH: nat := 7
  const BOARD_HEIGHT: nat := 8

  /** The two seats of a match: player1 plays from the bottom, player2 from the top. */
  datatype Side = Player1Side | Player2Side

  /** A cell of the BOARD_HEIGHT x BOARD_WIDTH rectangle. */
  predicate InBounds(p: Pos) {
    0 <= p.r < BOARD_HEIGHT && 0 <= p.c < BOARD_WIDTH
  }

  /** TOWER_POSITIONS: bottom centre for player1, top centre for player2. */
  function TowerPosition(s: Side): (p: Pos)
    ensures InBounds(p)
    ensures p.c == BOARD_WIDTH / 2
    ensures s == Player1Side ==> p.r == BOARD_HEIGHT - 1
    ensures s == Player2Side ==> p.r == 0
  {
    match s
    case Player1Side => Pos(7, 3)
    case Player2Side => Pos(0, 3)
  }

  /** SPAWN_ZONES: the one row on which a side may summon. */
  function SpawnRow(s: Side): (r: int)
    ensures 0 <= r < BOARD_HEIGHT
    ensures Abs(r - TowerPosition(s).r) == 1
  {
    match s
    case Player1Side => 6
    case Player2Side => 1
  }

  /** The two spawn rows differ, and no tower cell lies on either of them. */
  lemma SpawnRowsApart()
    ensures SpawnRow(Player1Side) != SpawnRow(Player2Side)
    ensures forall s, t :: TowerPosition(s).r != SpawnRow(t)
    ensures TowerPosition(Player1Side).r != TowerPosition(Player2Side).r
  {
  }
}
