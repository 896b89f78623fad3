/**
 * Consequences that span the modules: what the planner proposes on the board that
 * `confirm_match` builds, and how the turn handlers answer it.
 */
module Scenarios {
  import opened Basics
  import opened GameConstants
  import opened Board
  import opened GameState
  import opened AiEngine
  import opened GameHandler
  import opened Matchmaking

  /**
   * Of the six opening towers only player2's at (0, 1) and (0, 5) lie in the
   * BOARD_HEIGHT x BOARD_WIDTH rectangle that the planner and the ability engine scan;
   * player1's three towers (row 9) and player2's tower at (0, 8) are outside it.
   */
  lemma OpeningTowersInScan(p1: PlayerId, p2: PlayerId, p: Pos)
    requires InBounds(p) && At(InitialBoard(p1, p2), p).Tower?
    ensures p == Pos(0, 1) || p == Pos(0, 5)
    ensures At(InitialBoard(p1, p2), p).owner == p2
  {
    InitialBoardCells(p1, p2);
  }

  /**
   * The record `confirm_match` files carries no card catalog. On the opening table,
   * player1 summoning its first card onto (6, 0) passes every guard before the
   * lookup, so `summon_unit` throws.
   */
  lemma OpeningSummonThrows(m: PendingMatch, deck1: seq<CardId>, deck2: seq<CardId>)
    requires |deck1| > 0
    ensures SummonAsWritten(Opening(m, deck1, deck2), None, m.player1.id, 0, Pos(6, 0)) == SummonThrew
  {
    var t := Opening(m, deck1, deck2);
    InitialBoardCells(m.player1.id, m.player2.id);
    assert At(t.board, Pos(6, 0)) == TowerAt(m.player1.id, m.player2.id, 6, 0);
  }

  /**
   * With the catalog on the record, the same summon goes through whenever the catalog
   * knows the card and it costs at most the opening 10 energy: the unit stands on
   * (6, 0), player1 has paid for it and the turn has passed.
   */
  lemma OpeningSummonWithCatalog(m: PendingMatch, deck1: seq<CardId>, deck2: seq<CardId>, cards: seq<Card>)
    requires |deck1| > 0 && m.player1.id != m.player2.id
    requires FindCard(cards, deck1[0]).Some? && FindCard(cards, deck1[0]).value.cost <= 10
    ensures SummonAllowed(Opening(m, deck1, deck2), cards, m.player1.id, 0, Pos(6, 0))
    ensures var card := FindCard(cards, deck1[0]).value;
      var t' := Summoned(Opening(m, deck1, deck2), cards, m.player1.id, 0, Pos(6, 0));
      && At(t'.board, Pos(6, 0)) == NewUnit(card, m.player1.id, deck1[0])
      && t'.player1.energy == 10 - card.cost
      && t'.turn == m.player2.id
  {
    var t := Opening(m, deck1, deck2);
    InitialBoardCells(m.player1.id, m.player2.id);
    assert At(t.board, Pos(6, 0)) == TowerAt(m.player1.id, m.player2.id, 6, 0);
    assert t.player1.hand[0] == deck1[0];
    SummonEffect(t, cards, m.player1.id, 0, Pos(6, 0));
  }

  /**
   * The planner on the same record: playing player1 at the opening, it finds no
   * attack, has 10 energy and a card in hand, so `getBestSummon` reaches the missing
   * `cardsData` and throws.
   */
  lemma OpeningPlannerThrows(m: PendingMatch, deck1: seq<CardId>, deck2: seq<CardId>, pick: nat)
    requires |deck1| > 0
    ensures BestMoveAsWritten(Opening(m, deck1, deck2), None, m.player1.id, pick) == PlanThrew
  {
    var t := Opening(m, deck1, deck2);
    InitialBoardCells(m.player1.id, m.player2.id);
    LayoutHasNoAttacks(t.board, m.player1.id, m.player2.id, m.player1.id);
    DealtFacts(m.player1, deck1);
  }

  /**
   * With the catalog on the record, the planner playing player1 at the opening
   * proposes a summon onto its spawn row 6 whenever its first card is known and
   * affordable.
   */
  lemma OpeningPlannerSummons(m: PendingMatch, deck1: seq<CardId>, deck2: seq<CardId>, cards: seq<Card>, pick: nat)
    requires |deck1| > 0
    requires FindCard(cards, deck1[0]).Some? && FindCard(cards, deck1[0]).value.cost <= 10
    ensures var plan := BestMove(Opening(m, deck1, deck2), cards, m.player1.id, pick);
      plan.SummonPlan? && plan.target.r == 6
      && Playable(cards, Take(deck1, 5), 10, plan.cardIndex)
  {
    var t := Opening(m, deck1, deck2);
    var p1 := m.player1.id;
    InitialBoardCells(p1, m.player2.id);
    LayoutHasNoAttacks(t.board, p1, m.player2.id, p1);
    assert t.player1.hand[0] == deck1[0];
    assert Playable(cards, t.player1.hand, 10, 0);
    assert At(t.board, Pos(6, 0)) == TowerAt(p1, m.player2.id, 6, 0);
    assert AiSpawnRow(t, p1) == 6 && PlayerFor(t.player1, t.player2, p1) == t.player1;
    BestSummonFacts(t, cards, p1, pick);
    var summon := BestSummon(t, cards, p1, pick);
    assert summon.Some?;
    assert BestMove(t, cards, p1, pick) == Fallback(t, cards, p1, pick) == summon.value;
  }

  /** On the tower layout no attack exists: the only occupants are towers, which have no range. */
  lemma LayoutHasNoAttacks(b: Grid, p1: PlayerId, p2: PlayerId, ai: PlayerId)
    requires IsGrid(b) && LaidOut(b, p1, p2)
    ensures |PossibleAttacks(b, ai)| == 0
  {
    PossibleAttacksFacts(b, ai);
    var attacks := PossibleAttacks(b, ai);
    forall a
      ensures !Candidate(b, ai, a)
    {
      if InBounds(a.from) {
        assert At(b, a.from) == TowerAt(p1, p2, a.from.r, a.from.c);
      }
    }
    forall a
      ensures multiset(attacks)[a] == 0
    {
      assert a !in attacks;
    }
    assert multiset(attacks) == multiset{};
  }

  /** On the tower layout, the first forward step player2 can take walks its tower at (0, 1) to (1, 1). */
  lemma LayoutFirstMove(t: Table, p1: PlayerId, p2: PlayerId)
    requires IsGrid(t.board) && LaidOut(t.board, p1, p2) && t.player2.id == p2 && p1 != p2
    ensures |PossibleMoves(t, p2)| > 0 && PossibleMoves(t, p2)[0] == MovePlan(Pos(0, 1), Pos(1, 1))
  {
    var b := t.board;
    var moves := PossibleMoves(t, p2);
    var tower := MovePlan(Pos(0, 1), Pos(1, 1));
    assert At(b, Pos(0, 1)) == TowerAt(p1, p2, 0, 1);
    assert At(b, Pos(1, 1)) == TowerAt(p1, p2, 1, 1);
    ScanMovesMember(b, p2, 1, BOARD_HEIGHT, tower);
    assert tower in moves;
    var first := moves[0];
    ScanMovesMember(b, p2, 1, BOARD_HEIGHT, first);
    ScanMovesOrdered(b, p2, 1, BOARD_HEIGHT);
    var j :| 0 <= j < |moves| && moves[j] == tower;
    assert j == 0 || ScannedBefore(first.from, tower.from);
    assert At(b, Pos(0, 0)) == TowerAt(p1, p2, 0, 0);
    assert !Step(b, p2, 1, Pos(0, 0));
  }

  /**
   * Playing player2 on the opening board with no card it can afford, the planner
   * proposes to walk player2's own tower at (0, 1) down to (1, 1), because its move
   * scan does not exclude towers; `move_unit` refuses that move, because a tower is
   * not a unit.
   */
  lemma PlannerMovesTower(m: PendingMatch, deck1: seq<CardId>, deck2: seq<CardId>, cards: seq<Card>, pick: nat)
    requires m.player1.id != m.player2.id
    requires forall i :: 0 <= i < |Take(deck2, 5)| ==> !Playable(cards, Take(deck2, 5), 10, i)
    ensures BestMove(Opening(m, deck1, deck2), cards, m.player2.id, pick) == MovePlan(Pos(0, 1), Pos(1, 1))
    ensures !MoveAllowed(Opening(m, deck1, deck2).(turn := m.player2.id), m.player2.id, Pos(0, 1), Pos(1, 1))
  {
    var t := Opening(m, deck1, deck2);
    var p1 := m.player1.id;
    var p2 := m.player2.id;
    InitialBoardCells(p1, p2);
    LayoutHasNoAttacks(t.board, p1, p2, p2);
    BestSummonFacts(t, cards, p2, pick);
    assert BestSummon(t, cards, p2, pick).None?;
    LayoutFirstMove(t, p1, p2);
    assert At(t.board, Pos(0, 1)) == TowerAt(p1, p2, 0, 1);
  }
}
