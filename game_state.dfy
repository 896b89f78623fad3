/**
 * The server's mutable state: one `Game` record per running match, and the
 * registry holding the matchmaking queue, the pending matches awaiting two
 * confirmations and the active games.
 */
module GameState {
  import opened Basics
  import opened Board

  type GameId = string

  /** The part of a game record the turn handlers read and change. */
  datatype Table = Table(player1: Player, player2: Player, board: Grid, turn: PlayerId)

  /** The shared game record every handler, the ability engine and the AI act on. */
  class Game {
    const id: GameId
    /** The card catalog, an immutable parameter of the game. */
    const cardsData: seq<Card>
    var player1: Player
    var player2: Player
    var board: Grid
    /** The id of the player to move. */
    var turn: PlayerId
    /** The buff/debuff ledger; a record without the field behaves as an empty ledger. */
    var activeBuffs: seq<LedgerEntry>

    ghost predicate Valid()
      reads this
    {
      IsGrid(board) && LedgerOnGrid(board, activeBuffs)
    }

    function Snapshot(): Table
      reads this
    {
      Table(player1, player2, board, turn)
    }

    /** A fresh record: player1 moves first and the ledger is empty. */
    constructor (id: GameId, cardsData: seq<Card>, player1: Player, player2: Player, board: Grid)
      requires IsGrid(board)
      ensures Valid()
      ensures this.id == id && this.cardsData == cardsData
      ensures this.player1 == player1 && this.player2 == player2 && this.board == board
      ensures turn == player1.id && activeBuffs == []
    {
      this.id := id;
      this.cardsData := cardsData;
      this.player1 := player1;
      this.player2 := player2;
      this.board := board;
      this.turn := player1.id;
      this.activeBuffs := [];
    }
  }

  /** An entry of the matchmaking queue. */
  datatype Seeker = Seeker(id: PlayerId, name: string)

  /** One side of a pending match. */
  datatype Seat = Seat(id: PlayerId, name: string, confirmed: bool)

  datatype PendingMatch = PendingMatch(player1: Seat, player2: Seat)

  /** The queue and the pending matches, as values. */
  datatype Lobby = Lobby(queue: seq<Seeker>, pending: map<GameId, PendingMatch>)

  /** The three server-wide containers. */
  class Registry {
    var matchmakingQueue: seq<Seeker>
    var pendingMatches: map<GameId, PendingMatch>
    var activeGames: map<GameId, Game>

    constructor ()
      ensures matchmakingQueue == [] && pendingMatches == map[] && activeGames == map[]
    {
      matchmakingQueue := [];
      pendingMatches := map[];
      activeGames := map[];
    }

    function LobbyView(): Lobby
      reads this
    {
      Lobby(matchmakingQueue, pendingMatches)
    }

    /** The objects a handler addressed to game `id` may change. */
    function GameAt(id: GameId): set<object>
      reads this
    {
      if id in activeGames then {activeGames[id]} else {}
    }
  }
}
