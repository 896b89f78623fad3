/**
 * The matchmaking handlers: a FIFO queue of seekers paired two at a time into
 * pending matches, leaving the queue, and the confirmation step that turns a
 * match confirmed by both sides into a fresh game record.
 */
module Matchmaking {
  import opened Basics
  import opened Board
  import opened GameState

  // ------------------------------------------------------------ find_match

  /** A new pending match: the first seeker becomes player1, neither has confirmed. */
  function Seated(first: Seeker, second: Seeker): PendingMatch {
    PendingMatch(Seat(first.id, first.name, false), Seat(second.id, second.name, false))
  }

  /** `find_match`: queue the seeker, then pair the two oldest entries when there are two. */
  function Enqueued(l: Lobby, s: Seeker, matchId: GameId): Lobby {
    var q := l.queue + [s];
    if |q| >= 2 then Lobby(q[2..], l.pending[matchId := Seated(q[0], q[1])])
    else Lobby(q, l.pending)
  }

  method FindMatch(reg: Registry, id: PlayerId, name: string, matchId: GameId) returns (paired: bool)
    modifies reg`matchmakingQueue, reg`pendingMatches
    ensures paired == (|old(reg.matchmakingQueue)| >= 1)
    ensures reg.LobbyView() == Enqueued(old(reg.LobbyView()), Seeker(id, name), matchId)
  {
    reg.matchmakingQueue := reg.matchmakingQueue + [Seeker(id, name)];
    paired := false;
    if |reg.matchmakingQueue| >= 2 {
      var player1 := reg.matchmakingQueue[0];
      reg.matchmakingQueue := reg.matchmakingQueue[1..];
      var player2 := reg.matchmakingQueue[0];
      reg.matchmakingQueue := reg.matchmakingQueue[1..];
      reg.pendingMatches := reg.pendingMatches[matchId := Seated(player1, player2)];
      paired := true;
    }
  }

  /**
   * Starting from a queue of at most one seeker (as every reachable queue is), a
   * seeker joining an empty queue waits, and one joining a waiting seeker is paired
   * with it, the earlier seeker as player1, leaving the queue empty.
   */
  lemma EnqueuePairs(l: Lobby, s: Seeker, matchId: GameId)
    requires |l.queue| <= 1
    ensures |Enqueued(l, s, matchId).queue| <= 1
    ensures |l.queue| == 0 ==> Enqueued(l, s, matchId) == Lobby([s], l.pending)
    ensures |l.queue| == 1 ==> Enqueued(l, s, matchId) == Lobby([], l.pending[matchId := Seated(l.queue[0], s)])
  {
    if |l.queue| == 1 {
      assert (l.queue + [s])[2..] == [];
    }
  }

  /** No seeker is lost or invented: the queued ones and the newly seated ones are the old queue plus the newcomer. */
  lemma EnqueueConserves(l: Lobby, s: Seeker, matchId: GameId)
    ensures var l' := Enqueued(l, s, matchId);
      var q := l.queue + [s];
      if |q| >= 2 then
        && multiset(l'.queue) + multiset{q[0], q[1]} == multiset(l.queue) + multiset{s}
        && l'.pending[matchId].player1.id == q[0].id && l'.pending[matchId].player2.id == q[1].id
      else l'.queue == q && l'.pending == l.pending
  {
    var q := l.queue + [s];
    if |q| >= 2 {
      assert q == [q[0], q[1]] + q[2..];
      assert multiset(q) == multiset{q[0], q[1]} + multiset(q[2..]);
    }
  }

  // ------------------------------------------------------------ leave_queue / disconnect

  /** `findIndex((p) => p.id === id)`: the first queue position holding `id`. */
  function IndexOf(q: seq<Seeker>, id: PlayerId): (r: Option<nat>)
    ensures r.Some? ==> r.value < |q| && q[r.value].id == id && forall k :: 0 <= k < r.value ==> q[k].id != id
    ensures r.None? ==> forall k :: 0 <= k < |q| ==> q[k].id != id
  {
    if |q| == 0 then None
    else if q[0].id == id then Some(0)
    else
      var r := IndexOf(q[1..], id);
      if r.Some? then Some(r.value + 1) else None
  }

  /** The queue after `id` leaves: its first entry is spliced out, if it has one. */
  function Left(q: seq<Seeker>, id: PlayerId): seq<Seeker> {
    var i := IndexOf(q, id);
    if i.Some? then RemoveAt(q, i.value) else q
  }

  /** `leave_queue`, and the queue part of `disconnect`, which runs the same code. */
  method LeaveQueue(reg: Registry, id: PlayerId)
    modifies reg`matchmakingQueue
    ensures reg.matchmakingQueue == Left(old(reg.matchmakingQueue), id)
  {
    var index := IndexOf(reg.matchmakingQueue, id);
    if index.Some? {
      reg.matchmakingQueue := RemoveAt(reg.matchmakingQueue, index.value);
    }
  }

  /** The entries with id `id`, in queue order. */
  function Entries(q: seq<Seeker>, id: PlayerId): seq<Seeker> {
    if |q| == 0 then [] else (if q[0].id == id then [q[0]] else []) + Entries(q[1..], id)
  }

  lemma {:induction false} EntriesAppend(s: seq<Seeker>, t: seq<Seeker>, id: PlayerId)
    ensures Entries(s + t, id) == Entries(s, id) + Entries(t, id)
  {
    if |s| > 0 {
      assert (s + t)[0] == s[0];
      assert (s + t)[1..] == s[1..] + t;
      EntriesAppend(s[1..], t, id);
    } else {
      assert s + t == t;
    }
  }

  lemma {:induction false} NoEntries(q: seq<Seeker>, id: PlayerId)
    requires forall k :: 0 <= k < |q| ==> q[k].id != id
    ensures Entries(q, id) == []
  {
    if |q| > 0 {
      NoEntries(q[1..], id);
    }
  }

  /**
   * Leaving removes exactly one entry of `id` (the oldest) when there is one and
   * changes nothing otherwise; every other player's entries keep their order.
   */
  lemma LeftFacts(q: seq<Seeker>, id: PlayerId, other: PlayerId)
    ensures |Entries(q, id)| > 0 ==> Entries(Left(q, id), id) == Entries(q, id)[1..] && |Left(q, id)| == |q| - 1
    ensures |Entries(q, id)| == 0 ==> Left(q, id) == q
    ensures other != id ==> Entries(Left(q, id), other) == Entries(q, other)
  {
    var i := IndexOf(q, id);
    if i.Some? {
      var k := i.value;
      assert q == q[..k] + [q[k]] + q[k + 1..];
      assert Left(q, id) == q[..k] + q[k + 1..];
      EntriesAppend(q[..k] + [q[k]], q[k + 1..], id);
      EntriesAppend(q[..k], [q[k]], id);
      EntriesAppend(q[..k], q[k + 1..], id);
      NoEntries(q[..k], id);
      assert [q[k]][1..] == [];
      EntriesAppend(q[..k] + [q[k]], q[k + 1..], other);
      EntriesAppend(q[..k], [q[k]], other);
      EntriesAppend(q[..k], q[k + 1..], other);
    } else {
      NoEntries(q, id);
    }
  }

  // ------------------------------------------------------------ confirm_match

  /** Marks `sender`'s side (both sides, if both carry that id) as confirmed. */
  function Confirmed(m: PendingMatch, sender: PlayerId): PendingMatch {
    var m1 := if m.player1.id == sender then m.(player1 := m.player1.(confirmed := true)) else m;
    if m1.player2.id == sender then m1.(player2 := m1.player2.(confirmed := true)) else m1
  }

  predicate Ready(m: PendingMatch) {
    m.player1.confirmed && m.player2.confirmed
  }

  /**
   * Confirmations only ever set flags: a stranger's changes nothing, the order of two
   * confirmations does not matter, confirming twice is confirming once, and a match
   * is ready once both seated players have confirmed.
   */
  lemma ConfirmedFacts(m: PendingMatch, a: PlayerId, b: PlayerId)
    ensures a != m.player1.id && a != m.player2.id ==> Confirmed(m, a) == m
    ensures Confirmed(Confirmed(m, a), b) == Confirmed(Confirmed(m, b), a)
    ensures Confirmed(Confirmed(m, a), a) == Confirmed(m, a)
    ensures Ready(Confirmed(Confirmed(m, m.player1.id), m.player2.id))
    ensures Ready(Confirmed(m, a)) <==>
      (m.player1.confirmed || m.player1.id == a) && (m.player2.confirmed || m.player2.id == a)
  {
  }

  /** `slice(0, 5)` and `slice(5)`: JavaScript slices clamp at the end of the deck. */
  function Take(s: seq<CardId>, n: nat): (r: seq<CardId>)
    ensures |r| == Min(n, |s|) && r == s[..|r|]
  {
    if |s| <= n then s else s[..n]
  }

  function Drop(s: seq<CardId>, n: nat): (r: seq<CardId>)
    ensures |r| == |s| - Min(n, |s|) && r == s[|s| - |r|..]
  {
    if |s| <= n then [] else s[n..]
  }

  /** A player record for a seat: hand of up to five, the rest as the deck, 10 energy. */
  function Dealt(s: Seat, shuffled: seq<CardId>): Player {
    Player(s.id, s.name, Take(shuffled, 5), Drop(shuffled, 5), 10)
  }

  /** Dealing loses no card: hand then deck is the shuffled deck. */
  lemma DealtFacts(s: Seat, shuffled: seq<CardId>)
    ensures Dealt(s, shuffled).hand + Dealt(s, shuffled).deck == shuffled
    ensures |Dealt(s, shuffled).hand| == Min(5, |shuffled|)
    ensures Dealt(s, shuffled).energy == 10 && Dealt(s, shuffled).id == s.id
  {
    var n := Min(5, |shuffled|);
    assert shuffled == shuffled[..n] + shuffled[n..];
  }

  /** Rows x columns of the board confirm_match builds. */
  const INITIAL_SIZE: nat := 10

  function EmptyGrid(rows: nat, cols: nat): (b: Grid)
    ensures |b| == rows && forall r :: 0 <= r < rows ==> |b[r]| == cols && forall c :: 0 <= c < cols ==> b[r][c] == Empty
  {
    seq(rows, r => seq(cols, c => Empty))
  }

  /** The tower layout: who owns a tower at (r, c), and with how much hp. */
  function TowerAt(p1: PlayerId, p2: PlayerId, r: int, c: int): Cell {
    if (r == 9 || r == 0) && (c == 1 || c == 5 || c == 8) then
      Tower(if r == 9 then p1 else p2, Int(if c == 5 then 4000 else 3000))
    else Empty
  }

  /**
   * The opening board: 10x10, player1's towers on row 9 and player2's on row 0,
   * at columns 1 and 8 with 3000 hp and a main tower at column 5 with 4000 hp.
   */
  function InitialBoard(p1: PlayerId, p2: PlayerId): Grid {
    seq(INITIAL_SIZE, r => seq(INITIAL_SIZE, c => TowerAt(p1, p2, r, c)))
  }

  /** A 10x10 board holding the six towers of the layout and nothing else. */
  ghost predicate LaidOut(b: Grid, p1: PlayerId, p2: PlayerId) {
    && |b| == INITIAL_SIZE
    && (forall r :: 0 <= r < INITIAL_SIZE ==> |b[r]| == INITIAL_SIZE)
    && forall r, c :: 0 <= r < INITIAL_SIZE && 0 <= c < INITIAL_SIZE ==> b[r][c] == TowerAt(p1, p2, r, c)
  }

  /** The opening board is the tower layout, and a grid the engine can scan. */
  lemma InitialBoardCells(p1: PlayerId, p2: PlayerId)
    ensures LaidOut(InitialBoard(p1, p2), p1, p2) && IsGrid(InitialBoard(p1, p2))
  {
  }

  /** The six tower placements of `confirm_match`, on an empty 10x10 grid. */
  function PlacedTowers(p1: PlayerId, p2: PlayerId): Grid {
    var b := EmptyGrid(INITIAL_SIZE, INITIAL_SIZE);
    var b := Put(b, Pos(9, 1), Tower(p1, Int(3000)));
    var b := Put(b, Pos(9, 5), Tower(p1, Int(4000)));
    var b := Put(b, Pos(9, 8), Tower(p1, Int(3000)));
    var b := Put(b, Pos(0, 1), Tower(p2, Int(3000)));
    var b := Put(b, Pos(0, 5), Tower(p2, Int(4000)));
    Put(b, Pos(0, 8), Tower(p2, Int(3000)))
  }

  /** Placing the towers one by one yields the layout. */
  lemma TowersPlaced(p1: PlayerId, p2: PlayerId)
    ensures PlacedTowers(p1, p2) == InitialBoard(p1, p2)
  {
    var b := PlacedTowers(p1, p2);
    var layout := InitialBoard(p1, p2);
    forall r | 0 <= r < INITIAL_SIZE
      ensures b[r] == layout[r]
    {
      forall c | 0 <= c < INITIAL_SIZE
        ensures b[r][c] == layout[r][c]
      {
        assert At(b, Pos(r, c)) == b[r][c];
      }
    }
  }

  /** The opening record: both seats dealt from their shuffled decks, player1 to move. */
  function Opening(m: PendingMatch, deck1: seq<CardId>, deck2: seq<CardId>): Table {
    Table(Dealt(m.player1, deck1), Dealt(m.player2, deck2), InitialBoard(m.player1.id, m.player2.id), m.player1.id)
  }

  /**
   * `confirm_match`: an unknown match id changes nothing. Otherwise the sender's side
   * is confirmed; once both are, the pending entry is replaced by a game under the
   * same id. `deck1`/`deck2` stand for the two shuffles of the deck list and
   * `catalog` for the card catalog the new record is given.
   */
  method ConfirmMatch(reg: Registry, matchId: GameId, sender: PlayerId,
                      deck1: seq<CardId>, deck2: seq<CardId>, catalog: seq<Card>)
    returns (started: bool)
    modifies reg`pendingMatches, reg`activeGames
    ensures started == (matchId in old(reg.pendingMatches) && Ready(Confirmed(old(reg.pendingMatches)[matchId], sender)))
    ensures matchId !in old(reg.pendingMatches) ==>
      reg.pendingMatches == old(reg.pendingMatches) && reg.activeGames == old(reg.activeGames)
    ensures matchId in old(reg.pendingMatches) && !started ==>
      && reg.pendingMatches == old(reg.pendingMatches)[matchId := Confirmed(old(reg.pendingMatches)[matchId], sender)]
      && reg.activeGames == old(reg.activeGames)
    ensures started ==>
      && reg.pendingMatches == old(reg.pendingMatches) - {matchId}
      && matchId in reg.activeGames && fresh(reg.activeGames[matchId])
      && reg.activeGames == old(reg.activeGames)[matchId := reg.activeGames[matchId]]
      && Launched(reg.activeGames[matchId], matchId, old(reg.pendingMatches)[matchId], deck1, deck2, catalog)
  {
    started := false;
    if matchId !in reg.pendingMatches {
      return;
    }
    var m := MarkConfirmed(reg, matchId, sender);
    if m.player1.confirmed && m.player2.confirmed {
      var g := StartGame(reg, matchId, m, deck1, deck2, catalog);
      started := true;
    }
  }

  /** Sets the sender's flag(s) on the pending match in place. */
  method MarkConfirmed(reg: Registry, matchId: GameId, sender: PlayerId) returns (m: PendingMatch)
    requires matchId in reg.pendingMatches
    modifies reg`pendingMatches
    ensures m == Confirmed(old(reg.pendingMatches)[matchId], sender)
    ensures reg.pendingMatches == old(reg.pendingMatches)[matchId := m]
  {
    m := reg.pendingMatches[matchId];
    if m.player1.id == sender {
      m := m.(player1 := m.player1.(confirmed := true));
    }
    if m.player2.id == sender {
      m := m.(player2 := m.player2.(confirmed := true));
    }
    reg.pendingMatches := reg.pendingMatches[matchId := m];
  }

  /**
   * The game record that replaces a confirmed match: a valid record under the
   * match id, with the given catalog, the opening table and an empty ledger.
   */
  ghost predicate Launched(g: Game, matchId: GameId, m: PendingMatch,
                           deck1: seq<CardId>, deck2: seq<CardId>, catalog: seq<Card>)
    reads g
  {
    && g.Valid()
    && g.id == matchId && g.cardsData == catalog
    && g.Snapshot() == Opening(m, deck1, deck2)
    && g.activeBuffs == []
  }

  /**
   * Deals both seats, builds the opening board, files the new record under the
   * match id and drops the pending entry.
   */
  method StartGame(reg: Registry, matchId: GameId, m: PendingMatch,
                   deck1: seq<CardId>, deck2: seq<CardId>, catalog: seq<Card>)
    returns (g: Game)
    modifies reg`activeGames, reg`pendingMatches
    ensures fresh(g) && reg.activeGames == old(reg.activeGames)[matchId := g]
    ensures reg.pendingMatches == old(reg.pendingMatches) - {matchId}
    ensures Launched(g, matchId, m, deck1, deck2, catalog)
  {
    var p1, p2 := m.player1.id, m.player2.id;
    var board := EmptyGrid(INITIAL_SIZE, INITIAL_SIZE);
    board := Put(board, Pos(9, 1), Tower(p1, Int(3000)));
    board := Put(board, Pos(9, 5), Tower(p1, Int(4000)));
    board := Put(board, Pos(9, 8), Tower(p1, Int(3000)));
    board := Put(board, Pos(0, 1), Tower(p2, Int(3000)));
    board := Put(board, Pos(0, 5), Tower(p2, Int(4000)));
    board := Put(board, Pos(0, 8), Tower(p2, Int(3000)));
    assert board == PlacedTowers(p1, p2);
    TowersPlaced(p1, p2);
    InitialBoardCells(p1, p2);
    g := new Game(matchId, catalog, Dealt(m.player1, deck1), Dealt(m.player2, deck2), board);
    reg.activeGames := reg.activeGames[matchId := g];
    reg.pendingMatches := reg.pendingMatches - {matchId};
  }

  /**
   * The match lifecycle from the queue: two seekers paired by `find_match` start a
   * game once each has confirmed, in either order, and not before.
   */
  lemma LifecycleStarts(first: Seeker, second: Seeker, a: PlayerId, b: PlayerId)
    requires first.id != second.id && {a, b} == {first.id, second.id}
    ensures !Ready(Confirmed(Seated(first, second), a))
    ensures Ready(Confirmed(Confirmed(Seated(first, second), a), b))
  {
  }

  /**
   * Nothing stops a socket from queueing twice: it is then paired with itself, and
   * its single confirmation starts the game.
   */
  lemma SelfPairing(l: Lobby, s: Seeker, name: string, matchId: GameId)
    requires l.queue == [s]
    ensures var m := Enqueued(l, Seeker(s.id, name), matchId).pending[matchId];
      m.player1.id == m.player2.id == s.id && Ready(Confirmed(m, s.id))
  {
  }
}
