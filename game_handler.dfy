/**
 * The turn handlers of a running game: `switchTurn` and the bodies of the
 * `summon_unit`, `move_unit`, `attack_unit` and `end_turn` events. Each handler
 * first checks its guards and returns without a change when one fails; every
 * action that passes them ends the sender's turn. The handlers never call the
 * ability engine, never add energy and never tick the buff ledger.
 */
module GameHandler {
  import opened Basics
  import opened GameConstants
  import opened Board
  import opened GameState

  // ---------------------------------------------------------------- switchTurn

  /** `switchTurn` on one cell: a unit of the outgoing player gets both action flags cleared. */
  function Refreshed(x: Cell, outgoing: PlayerId): Cell {
    if x.Unit? && x.owner == outgoing then x.(hasMoved := false, hasAttacked := false) else x
  }

  function ClearedRow(row: seq<Cell>, outgoing: PlayerId): (row': seq<Cell>)
    ensures |row'| == |row|
  {
    seq(|row|, c requires 0 <= c < |row| => Refreshed(row[c], outgoing))
  }

  /** The whole grid (every row, every column of it) after the flag reset of `switchTurn`. */
  function ClearedBoard(b: Grid, outgoing: PlayerId): (b': Grid)
    ensures SameShape(b, b')
  {
    seq(|b|, r requires 0 <= r < |b| => ClearedRow(b[r], outgoing))
  }

  /** `game.turn === player1.id ? player2.id : player1.id`. */
  function NextTurn(t: Table): PlayerId {
    if t.turn == t.player1.id then t.player2.id else t.player1.id
  }

  /** The table after `switchTurn`. */
  function Switched(t: Table): Table {
    t.(board := ClearedBoard(t.board, t.turn), turn := NextTurn(t))
  }

  /** `switchTurn`: clear the outgoing player's unit flags over the whole grid, then hand the turn over. */
  method SwitchTurn(g: Game)
    requires g.Valid()
    modifies g`board, g`turn
    ensures g.Valid()
    ensures g.Snapshot() == Switched(old(g.Snapshot()))
  {
    ghost var b0 := g.board;
    ghost var outgoing := g.turn;
    var r := 0;
    while r < |g.board|
      invariant 0 <= r <= |g.board| == |b0| && g.turn == outgoing
      invariant forall i :: 0 <= i < r ==> g.board[i] == ClearedRow(b0[i], outgoing)
      invariant forall i :: r <= i < |b0| ==> g.board[i] == b0[i]
    {
      var c := 0;
      while c < |g.board[r]|
        invariant |g.board| == |b0| && 0 <= c <= |g.board[r]| == |b0[r]| && g.turn == outgoing
        invariant forall i :: 0 <= i < r ==> g.board[i] == ClearedRow(b0[i], outgoing)
        invariant forall i :: r < i < |b0| ==> g.board[i] == b0[i]
        invariant forall j :: 0 <= j < c ==> g.board[r][j] == Refreshed(b0[r][j], outgoing)
        invariant forall j :: c <= j < |b0[r]| ==> g.board[r][j] == b0[r][j]
      {
        var cell := g.board[r][c];
        if cell.Unit? && cell.owner == g.turn {
          g.board := g.board[r := g.board[r][c := cell.(hasMoved := false, hasAttacked := false)]];
        }
        c := c + 1;
      }
      assert g.board[r] == ClearedRow(b0[r], outgoing);
      r := r + 1;
    }
    assert g.board == ClearedBoard(b0, outgoing);
    SameShapeLedger(b0, g.board, g.activeBuffs);
    g.turn := if g.turn == g.player1.id then g.player2.id else g.player1.id;
  }

  /**
   * `switchTurn` touches only the outgoing player's units, and of those only the two
   * action flags, which it leaves false; every other cell keeps its occupant.
   */
  lemma SwitchedCells(b: Grid, outgoing: PlayerId, p: Pos)
    requires OnGrid(b, p)
    ensures OnGrid(ClearedBoard(b, outgoing), p)
    ensures var x, y := At(b, p), At(ClearedBoard(b, outgoing), p);
      if x.Unit? && x.owner == outgoing then
        y.Unit? && !y.hasMoved && !y.hasAttacked && y.(hasMoved := x.hasMoved, hasAttacked := x.hasAttacked) == x
      else y == x
  {
  }

  /** Clearing twice is clearing once. */
  lemma ClearedIdempotent(b: Grid, outgoing: PlayerId)
    ensures ClearedBoard(ClearedBoard(b, outgoing), outgoing) == ClearedBoard(b, outgoing)
  {
    var b1 := ClearedBoard(b, outgoing);
    forall r | 0 <= r < |b|
      ensures ClearedRow(b1[r], outgoing) == b1[r]
    {
    }
  }

  /** No cell is emptied or filled by `switchTurn`. */
  lemma {:induction false} ClearedRowCount(row: seq<Cell>, outgoing: PlayerId)
    ensures RowCount(ClearedRow(row, outgoing)) == RowCount(row)
  {
    if |row| > 0 {
      var n := |row|;
      assert ClearedRow(row, outgoing)[..n - 1] == ClearedRow(row[..n - 1], outgoing);
      ClearedRowCount(row[..n - 1], outgoing);
    }
  }

  lemma {:induction false} ClearedCount(b: Grid, outgoing: PlayerId)
    ensures GridCount(ClearedBoard(b, outgoing)) == GridCount(b)
  {
    if |b| > 0 {
      var n := |b|;
      assert ClearedBoard(b, outgoing)[..n - 1] == ClearedBoard(b[..n - 1], outgoing);
      ClearedCount(b[..n - 1], outgoing);
      ClearedRowCount(b[n - 1], outgoing);
    }
  }

  /**
   * Between two distinct players the turn alternates: it always moves to the other
   * one, so two switches give it back.
   */
  lemma TurnAlternates(t: Table)
    requires t.player1.id != t.player2.id && (t.turn == t.player1.id || t.turn == t.player2.id)
    ensures NextTurn(t) != t.turn
    ensures NextTurn(t) == t.player1.id || NextTurn(t) == t.player2.id
    ensures NextTurn(Switched(t)) == t.turn
    ensures Switched(t).player1 == t.player1 && Switched(t).player2 == t.player2
  {
  }

  // ---------------------------------------------------------------- summon_unit

  /** `isPlayer1 ? SPAWN_ZONES.player1 : SPAWN_ZONES.player2`. */
  function SpawnRowFor(t: Table, sender: PlayerId): int {
    if sender == t.player1.id then SpawnRow(Player1Side) else SpawnRow(Player2Side)
  }

  /** The guards of `summon_unit`, in the handler's order. */
  predicate SummonAllowed(t: Table, cards: seq<Card>, sender: PlayerId, cardIndex: int, target: Pos) {
    var player := PlayerFor(t.player1, t.player2, sender);
    && t.turn == sender
    && 0 <= cardIndex < |player.hand|
    && target.r == SpawnRowFor(t, sender)
    && |t.board| > 0 && 0 <= target.c < |t.board[0]|
    && OnGrid(t.board, target) && At(t.board, target).Empty?
    && FindCard(cards, player.hand[cardIndex]).Some?
    && FindCard(cards, player.hand[cardIndex]).value.cost <= player.energy
  }

  /** The record `summon_unit` writes into the target cell: full health, no flags set, no abilities. */
  function NewUnit(card: Card, owner: PlayerId, cardId: CardId): Cell {
    Unit(owner, cardId, card.maxHp, card.maxHp, card.attack, card.defense, card.range, card.speed,
         card.isRanged, false, false, false, [])
  }

  /** The player who summoned: the cost paid and the card spliced out of the hand. */
  function Paid(player: Player, cardIndex: nat, cost: int): Player
    requires cardIndex < |player.hand|
  {
    player.(energy := player.energy - cost, hand := RemoveAt(player.hand, cardIndex))
  }

  /** The table after an accepted summon. */
  function Summoned(t: Table, cards: seq<Card>, sender: PlayerId, cardIndex: int, target: Pos): Table
    requires SummonAllowed(t, cards, sender, cardIndex, target)
  {
    var player := PlayerFor(t.player1, t.player2, sender);
    var cardId := player.hand[cardIndex];
    var card := FindCard(cards, cardId).value;
    var paid := Paid(player, cardIndex, card.cost);
    var t1 := if sender == t.player1.id then t.(player1 := paid) else t.(player2 := paid);
    Switched(t1.(board := Put(t.board, target, NewUnit(card, sender, cardId))))
  }

  /** The `summon_unit` handler body on a game record. */
  method SummonUnit(g: Game, sender: PlayerId, cardIndex: int, target: Pos) returns (accepted: bool)
    requires g.Valid()
    modifies g`player1, g`player2, g`board, g`turn
    ensures g.Valid()
    ensures accepted == SummonAllowed(old(g.Snapshot()), g.cardsData, sender, cardIndex, target)
    ensures accepted ==> g.Snapshot() == Summoned(old(g.Snapshot()), g.cardsData, sender, cardIndex, target)
    ensures !accepted ==> g.Snapshot() == old(g.Snapshot())
  {
    var isPlayer1 := sender == g.player1.id;
    var player := if isPlayer1 then g.player1 else g.player2;
    if g.turn != sender {
      return false;
    }
    if cardIndex < 0 || cardIndex >= |player.hand| {
      return false;
    }
    var validRow := if isPlayer1 then SpawnRow(Player1Side) else SpawnRow(Player2Side);
    if target.r != validRow {
      return false;
    }
    if target.c < 0 || target.c >= |g.board[0]| {
      return false;
    }
    if !At(g.board, target).Empty? {
      return false;
    }
    var cardId := player.hand[cardIndex];
    var cardData := FindCard(g.cardsData, cardId);
    if cardData.None? {
      return false;
    }
    var cost := cardData.value.cost;
    if player.energy < cost {
      return false;
    }
    player := player.(energy := player.energy - cost);
    player := player.(hand := RemoveAt(player.hand, cardIndex));
    if isPlayer1 {
      g.player1 := player;
    } else {
      g.player2 := player;
    }
    g.board := Put(g.board, target, NewUnit(cardData.value, sender, cardId));
    SwitchTurn(g);
    accepted := true;
  }

  /**
   * An accepted summon: the summoner's energy drops by exactly the card's cost and
   * stays non-negative, exactly the chosen card leaves the hand, the target cell
   * holds a fresh unit of the sender at full health with both flags down, the
   * opponent's record is untouched and the turn passes.
   */
  lemma SummonEffect(t: Table, cards: seq<Card>, sender: PlayerId, cardIndex: int, target: Pos)
    requires SummonAllowed(t, cards, sender, cardIndex, target)
    requires t.player1.id != t.player2.id
    ensures var player := PlayerFor(t.player1, t.player2, sender);
      var card := FindCard(cards, player.hand[cardIndex]).value;
      var t' := Summoned(t, cards, sender, cardIndex, target);
      var player' := PlayerFor(t'.player1, t'.player2, sender);
      && player'.energy == player.energy - card.cost >= 0
      && player'.hand == player.hand[..cardIndex] + player.hand[cardIndex + 1..]
      && OnGrid(t'.board, target)
      && At(t'.board, target) == NewUnit(card, sender, player.hand[cardIndex])
      && At(t'.board, target).hp == At(t'.board, target).maxHp == card.maxHp
      && (sender == t.player1.id ==> t'.player2 == t.player2)
      && (sender != t.player1.id ==> t'.player1 == t.player1)
      && t'.turn == NextTurn(t) != sender
  {
    var player := PlayerFor(t.player1, t.player2, sender);
    var cardId := player.hand[cardIndex];
    var card := FindCard(cards, cardId).value;
    var b1 := Put(t.board, target, NewUnit(card, sender, cardId));
    SwitchedCells(b1, sender, target);
  }

  /** What `summon_unit` comes to on a record that may carry no catalog. */
  datatype SummonAttempt = SummonRefused | SummonThrew | SummonDone(table: Table)

  /** The guards of `summon_unit` that run before the catalog lookup. */
  predicate BeforeLookup(t: Table, sender: PlayerId, cardIndex: int, target: Pos) {
    var player := PlayerFor(t.player1, t.player2, sender);
    && t.turn == sender
    && 0 <= cardIndex < |player.hand|
    && target.r == SpawnRowFor(t, sender)
    && |t.board| > 0 && 0 <= target.c < |t.board[0]|
    && OnGrid(t.board, target) && At(t.board, target).Empty?
  }

  /**
   * `summon_unit` as written, on a record whose `cardsData` is `catalog`: without one,
   * the lookup throws as soon as the guards before it pass.
   */
  function SummonAsWritten(t: Table, catalog: Option<seq<Card>>, sender: PlayerId, cardIndex: int, target: Pos): (r: SummonAttempt)
    ensures r.SummonThrew? <==> catalog.None? && BeforeLookup(t, sender, cardIndex, target)
    ensures catalog.Some? ==> (r.SummonDone? <==> SummonAllowed(t, catalog.value, sender, cardIndex, target))
  {
    if !BeforeLookup(t, sender, cardIndex, target) then SummonRefused
    else if catalog.None? then SummonThrew
    else if SummonAllowed(t, catalog.value, sender, cardIndex, target) then
      SummonDone(Summoned(t, catalog.value, sender, cardIndex, target))
    else SummonRefused
  }

  // ---------------------------------------------------------------- move_unit

  /** The guards of `move_unit`: only the Manhattan distance is checked, never a path. */
  predicate MoveAllowed(t: Table, sender: PlayerId, from: Pos, to: Pos) {
    && t.turn == sender
    && OnGrid(t.board, from)
    && At(t.board, from).Unit? && At(t.board, from).owner == sender
    && !At(t.board, from).hasMoved
    && OnGrid(t.board, to) && At(t.board, to).Empty?
    && Manhattan(from, to) <= At(t.board, from).speed
  }

  /** The board after the unit has been marked moved, copied to `to`, and `from` cleared. */
  function Relocated(b: Grid, from: Pos, to: Pos): Grid
    requires OnGrid(b, from) && OnGrid(b, to) && At(b, from).Unit?
  {
    Put(Put(b, to, At(b, from).(hasMoved := true)), from, Empty)
  }

  /** The `move_unit` handler body on a game record. */
  method MoveUnit(g: Game, sender: PlayerId, from: Pos, to: Pos) returns (accepted: bool)
    requires g.Valid()
    modifies g`board, g`turn
    ensures g.Valid()
    ensures accepted == MoveAllowed(old(g.Snapshot()), sender, from, to)
    ensures accepted ==> g.Snapshot() == Switched(old(g.Snapshot()).(board := Relocated(old(g.board), from, to)))
    ensures !accepted ==> g.Snapshot() == old(g.Snapshot())
  {
    if g.turn != sender {
      return false;
    }
    if !OnGrid(g.board, from) {
      return false;
    }
    var unit := At(g.board, from);
    if unit.Empty? || unit.owner != sender {
      return false;
    }
    if !unit.Unit? {
      return false;
    }
    if unit.hasMoved {
      return false;
    }
    if !OnGrid(g.board, to) || !At(g.board, to).Empty? {
      return false;
    }
    var dist := Abs(from.r - to.r) + Abs(from.c - to.c);
    if dist > unit.speed {
      return false;
    }
    unit := unit.(hasMoved := true);
    g.board := Put(g.board, to, unit);
    g.board := Put(g.board, from, Empty);
    SwitchTurn(g);
    accepted := true;
  }

  /**
   * An accepted move relocates the unit: `to` holds it (its flags already cleared
   * again by the turn switch), `from` is empty, no other cell changes its
   * occupant, and the number of occupied cells is the same.
   */
  lemma MoveEffect(t: Table, sender: PlayerId, from: Pos, to: Pos)
    requires MoveAllowed(t, sender, from, to)
    ensures var b' := Switched(t.(board := Relocated(t.board, from, to))).board;
      && SameShape(t.board, b')
      && At(b', from).Empty?
      && At(b', to) == At(t.board, from).(hasMoved := false, hasAttacked := false)
      && GridCount(b') == GridCount(t.board)
  {
    var b := t.board;
    var unit := At(b, from);
    var b1 := Put(b, to, unit.(hasMoved := true));
    var b2 := Put(b1, from, Empty);
    GridCountUpdate(b, to, unit.(hasMoved := true));
    GridCountUpdate(b1, from, Empty);
    ClearedCount(b2, sender);
    SwitchedCells(b2, sender, from);
    SwitchedCells(b2, sender, to);
  }

  /** Cells other than `from` and `to` keep their occupant through a move. */
  lemma MoveFrame(t: Table, sender: PlayerId, from: Pos, to: Pos, q: Pos)
    requires MoveAllowed(t, sender, from, to)
    requires OnGrid(t.board, q) && q != from && q != to
    ensures var b' := Switched(t.(board := Relocated(t.board, from, to))).board;
      OnGrid(b', q) && At(b', q) == Refreshed(At(t.board, q), sender)
  {
    SwitchedCells(Relocated(t.board, from, to), sender, q);
  }

  // ---------------------------------------------------------------- attack_unit

  /** The guards of `attack_unit`. */
  predicate AttackAllowed(t: Table, sender: PlayerId, from: Pos, to: Pos) {
    && t.turn == sender
    && OnGrid(t.board, from)
    && At(t.board, from).Unit? && At(t.board, from).owner == sender
    && !At(t.board, from).hasAttacked
    && OnGrid(t.board, to) && !At(t.board, to).Empty? && At(t.board, to).owner != sender
    && Manhattan(from, to) <= At(t.board, from).range
  }

  /** `Math.max(1, attacker.attack - (target.defense || 0))`. */
  function StrikeDamage(attacker: Cell, target: Cell): (d: int)
    requires attacker.Unit?
    ensures d >= 1
    ensures d >= attacker.attack - target.DefenseOrZero()
    ensures d == 1 || d == attacker.attack - target.DefenseOrZero()
  {
    Max(1, attacker.attack - target.DefenseOrZero())
  }

  /** The result of `attack_unit`: refused, done (turn switched), or a tower destroyed (game over). */
  datatype AttackOutcome = AttackRefused | Struck(table: Table) | TowerFell(table: Table)

  /** The board after the strike, before any turn switch. */
  function StruckBoard(b: Grid, from: Pos, to: Pos): Grid
    requires OnGrid(b, from) && OnGrid(b, to) && At(b, from).Unit? && !At(b, to).Empty?
  {
    var attacker := At(b, from);
    var target := Wounded(At(b, to), StrikeDamage(attacker, At(b, to)));
    var b1 := Put(Put(b, to, target), from, attacker.(hasAttacked := true));
    if Fallen(target) then Put(b1, to, Empty) else b1
  }

  function Attack(t: Table, sender: PlayerId, from: Pos, to: Pos): (r: AttackOutcome)
  {
    if !AttackAllowed(t, sender, from, to) then AttackRefused
    else
      var target := Wounded(At(t.board, to), StrikeDamage(At(t.board, from), At(t.board, to)));
      var t1 := t.(board := StruckBoard(t.board, from, to));
      if Fallen(target) && target.Tower? then TowerFell(t1) else Struck(Switched(t1))
  }

  /** The `attack_unit` handler body on a game record; the caller ends the game on TowerFell. */
  method AttackUnit(g: Game, sender: PlayerId, from: Pos, to: Pos) returns (outcome: AttackOutcome)
    requires g.Valid()
    modifies g`board, g`turn
    ensures g.Valid()
    ensures outcome == Attack(old(g.Snapshot()), sender, from, to)
    ensures outcome.AttackRefused? ==> g.Snapshot() == old(g.Snapshot())
    ensures !outcome.AttackRefused? ==> g.Snapshot() == outcome.table
  {
    if g.turn != sender {
      return AttackRefused;
    }
    if !OnGrid(g.board, from) {
      return AttackRefused;
    }
    var attacker := At(g.board, from);
    if attacker.Empty? || attacker.owner != sender {
      return AttackRefused;
    }
    if !attacker.Unit? {
      return AttackRefused;
    }
    if attacker.hasAttacked {
      return AttackRefused;
    }
    if !OnGrid(g.board, to) {
      return AttackRefused;
    }
    var target := At(g.board, to);
    if target.Empty? || target.owner == sender {
      return AttackRefused;
    }
    var dist := Abs(from.r - to.r) + Abs(from.c - to.c);
    if dist > attacker.range {
      return AttackRefused;
    }
    target := Wounded(target, Max(1, attacker.attack - target.DefenseOrZero()));
    Strike(g, from, to);
    if Fallen(target) && target.Tower? {
      return TowerFell(g.Snapshot());
    }
    SwitchTurn(g);
    outcome := Struck(g.Snapshot());
  }

  /** The strike itself: the target wounded, the attacker marked, a fallen target removed. */
  method Strike(g: Game, from: Pos, to: Pos)
    requires g.Valid()
    requires OnGrid(g.board, from) && OnGrid(g.board, to) && At(g.board, from).Unit? && !At(g.board, to).Empty?
    modifies g`board
    ensures g.Valid()
    ensures g.board == StruckBoard(old(g.board), from, to)
  {
    var attacker := At(g.board, from);
    var target := At(g.board, to);
    var damage := Max(1, attacker.attack - target.DefenseOrZero());
    target := Wounded(target, damage);
    g.board := Put(g.board, to, target);
    attacker := attacker.(hasAttacked := true);
    g.board := Put(g.board, from, attacker);
    if Fallen(target) {
      g.board := Put(g.board, to, Empty);
    }
    SameShapeLedger(old(g.board), g.board, g.activeBuffs);
  }

  /**
   * An attack that passes the guards takes exactly `max(1, attack - defense)` off
   * the target (at least 1), marks the attacker, and empties the target cell
   * exactly when the target's hp falls to 0 or below; only a fallen tower ends
   * the game without a turn switch.
   */
  lemma AttackEffect(t: Table, sender: PlayerId, from: Pos, to: Pos)
    requires AttackAllowed(t, sender, from, to)
    ensures var x := At(t.board, to);
      var d := StrikeDamage(At(t.board, from), x);
      var b1 := StruckBoard(t.board, from, to);
      && d >= 1
      && (x.Unit? ==> (At(b1, to).Empty? <==> x.hp - d <= 0))
      && (x.Unit? && x.hp - d > 0 ==> At(b1, to) == x.(hp := x.hp - d))
      && (x.Tower? ==> (At(b1, to).Empty? <==> x.towerHp.Int? && x.towerHp.value - d <= 0))
      && (x.Tower? && !At(b1, to).Empty? ==> At(b1, to) == x.(towerHp := SubNum(x.towerHp, d)))
      && At(b1, from) == At(t.board, from).(hasAttacked := true)
      && (Attack(t, sender, from, to).TowerFell? <==> x.Tower? && At(b1, to).Empty?)
      && (Attack(t, sender, from, to).Struck? ==> Attack(t, sender, from, to).table.turn == NextTurn(t))
  {
  }

  /**
   * After an accepted attack that does not end the game, the attacker's flags are
   * already false again: `switchTurn` runs while the turn is still the attacker's.
   */
  lemma AttackerRefreshed(t: Table, sender: PlayerId, from: Pos, to: Pos)
    requires AttackAllowed(t, sender, from, to)
    requires Attack(t, sender, from, to).Struck?
    ensures var b' := Attack(t, sender, from, to).table.board;
      OnGrid(b', from) && At(b', from).Unit? && !At(b', from).hasAttacked && !At(b', from).hasMoved
  {
    SwitchedCells(StruckBoard(t.board, from, to), sender, from);
  }

  // ---------------------------------------------------------------- end_turn

  /** The `end_turn` handler body: on the sender's turn, only a switch. */
  method EndTurn(g: Game, sender: PlayerId) returns (accepted: bool)
    requires g.Valid()
    modifies g`board, g`turn
    ensures g.Valid()
    ensures accepted == (old(g.turn) == sender)
    ensures g.Snapshot() == if accepted then Switched(old(g.Snapshot())) else old(g.Snapshot())
  {
    if g.turn != sender {
      return false;
    }
    SwitchTurn(g);
    accepted := true;
  }

  /** Every accepted action hands the turn over; a refused one leaves it. */
  lemma ActionsEndTurn(t: Table, cards: seq<Card>, sender: PlayerId, cardIndex: int, from: Pos, to: Pos)
    requires t.player1.id != t.player2.id
    ensures SummonAllowed(t, cards, sender, cardIndex, to) ==> Summoned(t, cards, sender, cardIndex, to).turn != sender
    ensures MoveAllowed(t, sender, from, to) ==> Switched(t.(board := Relocated(t.board, from, to))).turn != sender
    ensures Attack(t, sender, from, to).Struck? ==> Attack(t, sender, from, to).table.turn != sender
    ensures Attack(t, sender, from, to).TowerFell? ==> Attack(t, sender, from, to).table.turn == sender
  {
  }

  // ---------------------------------------------------------------- the registry

  /** `summon_unit`: an unknown game id is ignored. */
  method OnSummonUnit(reg: Registry, gameId: GameId, sender: PlayerId, cardIndex: int, target: Pos) returns (accepted: bool)
    requires gameId in reg.activeGames ==> reg.activeGames[gameId].Valid()
    modifies reg.GameAt(gameId)
    ensures gameId !in reg.activeGames ==> !accepted
    ensures gameId in reg.activeGames ==> reg.activeGames[gameId].Valid()
    ensures gameId in reg.activeGames ==>
      accepted == SummonAllowed(old(reg.activeGames[gameId].Snapshot()), reg.activeGames[gameId].cardsData, sender, cardIndex, target)
    ensures gameId in reg.activeGames ==>
      reg.activeGames[gameId].Snapshot() ==
        if accepted then Summoned(old(reg.activeGames[gameId].Snapshot()), reg.activeGames[gameId].cardsData, sender, cardIndex, target)
        else old(reg.activeGames[gameId].Snapshot())
  {
    accepted := false;
    if gameId in reg.activeGames {
      var g := reg.activeGames[gameId];
      accepted := SummonUnit(g, sender, cardIndex, target);
    }
  }

  /** `move_unit`: an unknown game id is ignored. */
  method OnMoveUnit(reg: Registry, gameId: GameId, sender: PlayerId, from: Pos, to: Pos) returns (accepted: bool)
    requires gameId in reg.activeGames ==> reg.activeGames[gameId].Valid()
    modifies reg.GameAt(gameId)
    ensures gameId !in reg.activeGames ==> !accepted
    ensures gameId in reg.activeGames ==> reg.activeGames[gameId].Valid()
    ensures gameId in reg.activeGames ==> accepted == MoveAllowed(old(reg.activeGames[gameId].Snapshot()), sender, from, to)
    ensures gameId in reg.activeGames ==>
      reg.activeGames[gameId].Snapshot() ==
        if accepted then Switched(old(reg.activeGames[gameId].Snapshot()).(board := Relocated(old(reg.activeGames[gameId].board), from, to)))
        else old(reg.activeGames[gameId].Snapshot())
  {
    accepted := false;
    if gameId in reg.activeGames {
      var g := reg.activeGames[gameId];
      accepted := MoveUnit(g, sender, from, to);
    }
  }

  /** `attack_unit`: an unknown game id is ignored; a destroyed tower deletes the game. */
  method OnAttackUnit(reg: Registry, gameId: GameId, sender: PlayerId, from: Pos, to: Pos) returns (outcome: AttackOutcome)
    requires gameId in reg.activeGames ==> reg.activeGames[gameId].Valid()
    modifies reg`activeGames, reg.GameAt(gameId)
    ensures gameId !in old(reg.activeGames) ==> outcome.AttackRefused? && reg.activeGames == old(reg.activeGames)
    ensures gameId in old(reg.activeGames) ==>
      outcome == Attack(old(reg.activeGames[gameId].Snapshot()), sender, from, to)
    ensures gameId in old(reg.activeGames) ==>
      && old(reg.activeGames)[gameId].Valid()
      && old(reg.activeGames)[gameId].Snapshot() ==
           if outcome.AttackRefused? then old(reg.activeGames[gameId].Snapshot()) else outcome.table
    ensures outcome.TowerFell? ==> reg.activeGames == old(reg.activeGames) - {gameId}
    ensures !outcome.TowerFell? ==> reg.activeGames == old(reg.activeGames)
  {
    outcome := AttackRefused;
    if gameId in reg.activeGames {
      var g := reg.activeGames[gameId];
      outcome := AttackUnit(g, sender, from, to);
      if outcome.TowerFell? {
        reg.activeGames := reg.activeGames - {gameId};
      }
    }
  }

  /** `end_turn`: an unknown game id is ignored. */
  method OnEndTurn(reg: Registry, gameId: GameId, sender: PlayerId) returns (accepted: bool)
    requires gameId in reg.activeGames ==> reg.activeGames[gameId].Valid()
    modifies reg.GameAt(gameId)
    ensures gameId !in reg.activeGames ==> !accepted
    ensures gameId in reg.activeGames ==> reg.activeGames[gameId].Valid()
    ensures gameId in reg.activeGames ==> accepted == (old(reg.activeGames[gameId].turn) == sender)
    ensures gameId in reg.activeGames ==>
      reg.activeGames[gameId].Snapshot() ==
        if accepted then Switched(old(reg.activeGames[gameId].Snapshot())) else old(reg.activeGames[gameId].Snapshot())
  {
    accepted := false;
    if gameId in reg.activeGames {
      var g := reg.activeGames[gameId];
      accepted := EndTurn(g, sender);
    }
  }
}
