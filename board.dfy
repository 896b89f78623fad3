/**
 * The shared game record's data: board cells (empty, a unit or a tower), the card
 * catalog, ability definitions, player records and buff/debuff ledger entries,
 * together with the grid accessors every other module uses.
 */
module Board {
  import opened Basics
  import opened GameConstants

  /** Socket ids identify players; card ids identify catalog entries. */
  type PlayerId = string
  type CardId = string

  /**
   * A JavaScript number held by a record. Arithmetic on a missing field yields NaN,
   * which compares false with everything (`NaN <= 0` is false).
   */
  datatype Num = Int(value: int) | NaN

  function SubNum(n: Num, d: int): Num {
    match n
    case Int(v) => Int(v - d)
    case NaN => NaN
  }

  /** `ability.target`; any other string is OtherTarget. */
  datatype TargetKind =
    | SelfTarget | AllyTarget | EnemyTarget | TileTarget | AllAlliesTarget | AllEnemiesTarget | OtherTarget

  /** `ability.abilityType`. */
  datatype AbilityType = Active | Passive | OtherAbilityType

  /** A buff or debuff payload; a missing delta reads as 0, a missing duration is permanent. */
  datatype StatChange = StatChange(attack: int, defense: int, speed: int, durationTurns: Option<int>)

  /**
   * An ability definition. Numeric payloads that the catalog leaves out read as 0,
   * which the engine treats as "absent" (`if (ability.damage)`); the custom effect
   * string "extraDamageAgainstStructures:N" is the bonus `structureBonus == Some(N)`.
   */
  datatype Ability = Ability(
    name: string,
    abilityType: AbilityType,
    trigger: Option<string>,
    energyCost: int,
    range: int,
    target: TargetKind,
    areaEffect: bool,
    areaSize: Option<int>,
    damage: int,
    heal: int,
    buff: Option<StatChange>,
    debuff: Option<StatChange>,
    ignoresDefense: bool,
    friendlyFire: bool,
    allowAttackAfterFullMove: bool,
    structureBonus: Option<int>)

  /** A catalog entry. */
  datatype Card = Card(
    id: CardId, cost: int, maxHp: int, attack: int, defense: int,
    range: int, speed: int, isRanged: bool, abilities: seq<Ability>)

  /**
   * A board cell. A tower record carries only its owner and hp, so it has no
   * defense, range, speed, maxHp or per-turn flags.
   */
  datatype Cell =
    | Empty
    | Unit(owner: PlayerId, cardId: CardId, hp: int, maxHp: int, attack: int, defense: int,
           range: int, speed: int, isRanged: bool,
           hasMoved: bool, hasAttacked: bool, abilityUsedThisTurn: bool,
           abilities: seq<Ability>)
    | Tower(owner: PlayerId, towerHp: Num)
  {
    /** `cell.defense || 0`. */
    function DefenseOrZero(): int {
      if Unit? then defense else 0
    }

    /** `cell.hasMoved` as a truth value: a tower has no such flag. */
    predicate Moved() {
      Unit? && hasMoved
    }

    /** `cell.hasAttacked` as a truth value: a tower has no such flag. */
    predicate Attacked() {
      Unit? && hasAttacked
    }
  }

  /** `target.hp -= d`; a tower whose hp is NaN stays NaN. */
  function Wounded(x: Cell, d: int): (y: Cell)
    requires !x.Empty?
    ensures !y.Empty? && y.Unit? == x.Unit? && y.owner == x.owner
  {
    match x
    case Unit(_, _, _, _, _, _, _, _, _, _, _, _, _) => x.(hp := x.hp - d)
    case Tower(o, h) => Tower(o, SubNum(h, d))
  }

  /** `target.hp <= 0`, which is false for a NaN hp. */
  predicate Fallen(x: Cell) {
    match x
    case Empty => false
    case Unit(_, _, hp, _, _, _, _, _, _, _, _, _, _) => hp <= 0
    case Tower(_, h) => h.Int? && h.value <= 0
  }

  /** A player's record in a game. */
  datatype Player = Player(id: PlayerId, name: string, hand: seq<CardId>, deck: seq<CardId>, energy: int)

  /** `playerId === player1.id ? player1 : player2`. */
  function PlayerFor(player1: Player, player2: Player, id: PlayerId): Player {
    if id == player1.id then player1 else player2
  }

  datatype LedgerKind = BuffKind | DebuffKind

  /** An entry of `game.activeBuffs`. */
  datatype LedgerEntry = LedgerEntry(
    targetPos: Pos, abilityName: string, kind: LedgerKind,
    attack: int, defense: int, speed: int,
    durationTurns: Option<int>, turnsRemaining: Option<int>)

  /** `cardsData.find((c) => c.id === id)`: the first catalog card with that id. */
  function FindCard(cards: seq<Card>, id: CardId): (r: Option<Card>)
    ensures r.Some? ==> r.value in cards && r.value.id == id
    ensures r.None? <==> forall k :: 0 <= k < |cards| ==> cards[k].id != id
  {
    if |cards| == 0 then None
    else if cards[0].id == id then Some(cards[0])
    else FindCard(cards[1..], id)
  }

  /** When two catalog cards share an id, the lookup returns the earlier one. */
  lemma {:induction false} FindCardFirst(cards: seq<Card>, id: CardId)
    ensures FindCard(cards, id).Some? ==>
      exists k :: 0 <= k < |cards| && cards[k] == FindCard(cards, id).value && forall j :: 0 <= j < k ==> cards[j].id != id
  {
    if |cards| > 0 && cards[0].id != id && FindCard(cards, id).Some? {
      FindCardFirst(cards[1..], id);
      var k :| 0 <= k < |cards| - 1 && cards[1..][k] == FindCard(cards, id).value
        && forall j :: 0 <= j < k ==> cards[1..][j].id != id;
      assert forall j :: 0 <= j < k + 1 ==> cards[j].id != id by {
        forall j | 0 <= j < k + 1 ensures cards[j].id != id {
          if j > 0 { assert cards[j] == cards[1..][j - 1]; }
        }
      }
      assert cards[k + 1] == FindCard(cards, id).value;
    }
  }

  // ---------------------------------------------------------------- the grid

  type Grid = seq<seq<Cell>>

  /**
   * A rectangular grid covering the BOARD_HEIGHT x BOARD_WIDTH rectangle the
   * engine's loops read (on a smaller grid those reads would throw).
   */
  ghost predicate IsGrid(b: Grid) {
    && |b| >= BOARD_HEIGHT
    && |b[0]| >= BOARD_WIDTH
    && forall r :: 0 <= r < |b| ==> |b[r]| == |b[0]|
  }

  /** Two grids of the same dimensions. */
  ghost predicate SameShape(b: Grid, b': Grid) {
    |b| == |b'| && forall r :: 0 <= r < |b| ==> |b[r]| == |b'[r]|
  }

  function Width(b: Grid): nat
    requires |b| > 0
  {
    |b[0]|
  }

  predicate OnGrid(b: Grid, p: Pos) {
    0 <= p.r < |b| && 0 <= p.c < |b[p.r]|
  }

  function At(b: Grid, p: Pos): Cell
    requires OnGrid(b, p)
  {
    b[p.r][p.c]
  }

  /** `board[p.r][p.c] = x`. */
  function Put(b: Grid, p: Pos, x: Cell): (b': Grid)
    requires OnGrid(b, p)
    ensures SameShape(b, b')
    ensures OnGrid(b', p) && At(b', p) == x
    ensures forall q :: OnGrid(b, q) && q != p ==> OnGrid(b', q) && At(b', q) == At(b, q)
  {
    b[p.r := b[p.r][p.c := x]]
  }

  lemma SameShapeOnGrid(b: Grid, b': Grid, p: Pos)
    requires SameShape(b, b') && OnGrid(b, p)
    ensures OnGrid(b', p)
  {
  }

  lemma InBoundsOnGrid(b: Grid, p: Pos)
    requires IsGrid(b) && InBounds(p)
    ensures OnGrid(b, p)
  {
  }

  /** Every ledger entry names a cell of the grid. */
  ghost predicate LedgerOnGrid(b: Grid, ledger: seq<LedgerEntry>) {
    forall i :: 0 <= i < |ledger| ==> OnGrid(b, ledger[i].targetPos)
  }

  /** A grid of the same shape is as good a home for the ledger. */
  lemma SameShapeLedger(b: Grid, b': Grid, ledger: seq<LedgerEntry>)
    requires IsGrid(b) && SameShape(b, b') && LedgerOnGrid(b, ledger)
    ensures IsGrid(b') && LedgerOnGrid(b', ledger)
  {
    forall i | 0 <= i < |ledger|
      ensures OnGrid(b', ledger[i].targetPos)
    {
      SameShapeOnGrid(b, b', ledger[i].targetPos);
    }
  }

  // ------------------------------------------------ row-major scan of the rectangle

  /** The number of cells of the BOARD_HEIGHT x BOARD_WIDTH rectangle. */
  const SCAN_SIZE: nat := BOARD_HEIGHT * BOARD_WIDTH

  /** The k-th cell visited by `for (r...) for (c...)` over the rectangle. */
  function ScanPos(k: nat): Pos {
    Pos(k / BOARD_WIDTH, k % BOARD_WIDTH)
  }

  /** The step at which the row-major scan visits p. */
  function ScanIndex(p: Pos): int {
    p.r * BOARD_WIDTH + p.c
  }

  lemma ScanPosIndex(k: nat)
    requires k < SCAN_SIZE
    ensures InBounds(ScanPos(k)) && ScanIndex(ScanPos(k)) == k
  {
  }

  lemma ScanIndexPos(p: Pos)
    requires InBounds(p)
    ensures 0 <= ScanIndex(p) < SCAN_SIZE && ScanPos(ScanIndex(p)) == p
  {
  }

  /** Occupant counting: 1 for a unit or tower, 0 for an empty cell. */
  function Occupancy(x: Cell): nat {
    if x.Empty? then 0 else 1
  }

  function RowCount(row: seq<Cell>): nat {
    if |row| == 0 then 0 else RowCount(row[..|row| - 1]) + Occupancy(row[|row| - 1])
  }

  /** The number of occupied cells of a grid. */
  function GridCount(b: Grid): nat {
    if |b| == 0 then 0 else GridCount(b[..|b| - 1]) + RowCount(b[|b| - 1])
  }

  lemma {:induction false} RowCountUpdate(row: seq<Cell>, c: nat, x: Cell)
    requires c < |row|
    ensures RowCount(row[c := x]) == RowCount(row) - Occupancy(row[c]) + Occupancy(x)
  {
    var n := |row|;
    if c == n - 1 {
      assert row[c := x][..n - 1] == row[..n - 1];
    } else {
      assert row[c := x][..n - 1] == row[..n - 1][c := x];
      RowCountUpdate(row[..n - 1], c, x);
    }
  }

  /** Writing x into one cell changes the occupant count by what x and the old cell contribute. */
  lemma {:induction false} GridCountUpdate(b: Grid, p: Pos, x: Cell)
    requires OnGrid(b, p)
    ensures GridCount(Put(b, p, x)) == GridCount(b) - Occupancy(At(b, p)) + Occupancy(x)
  {
    var n := |b|;
    var b' := Put(b, p, x);
    if p.r == n - 1 {
      assert b'[..n - 1] == b[..n - 1];
      RowCountUpdate(b[n - 1], p.c, x);
    } else {
      assert b'[..n - 1] == Put(b[..n - 1], p, x);
      assert b'[n - 1] == b[n - 1];
      GridCountUpdate(b[..n - 1], p, x);
    }
  }
}
