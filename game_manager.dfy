/** The game server's directory of running games: games by id, the (never written) assignment of
    players to games, the administrative `create_game` / `get_game` handlers and the router that
    forwards player requests to a game. */
module GameManager {
  import opened Messages

  /** A handle on a client's outbound channel. */
  type Mailbox = nat

  datatype Player = Player(id: UserId, sender: Mailbox)

  datatype Move = Rock | Paper | Scissors

  datatype GameRequest =
    | Connect(player: Player)
    | MoveRequest(mover: UserId, value: Move)
    | Disconnect(player: Player)

  /** A running game: its id and its two players, in the order the creation request named them. */
  datatype Game = Game(id: Id, players: (Id, Id))

  datatype CreateGameRequest = CreateGameRequest(gameId: Id, players: seq<Id>)

  /** What `create_game` answers: 201 with the new id, 409, or (where the handler panics on a
      player list that does not hold exactly two ids) a rejected request. */
  datatype CreateGameResponse = Created(gameId: Id) | Conflict | InvalidPlayerCount

  /** What `get_game` answers: 200 with the id and the players, or 404. */
  datatype GetGameResponse = Found(gameId: Id, players: (Id, Id)) | NotFound

  /** What the router does with one request: hand it to a game, or drop it. */
  datatype RouteOutcome = Forwarded(game: Game, request: GameRequest) | Dropped(key: Id)

  /** `get_game`: the stored players of the game, or not found. */
  function GetGame(games: map<Id, Game>, gameId: Id): (r: GetGameResponse)
    ensures r == NotFound <==> gameId !in games
    ensures r.Found? ==> r.gameId == gameId && r.players == games[gameId].players
  {
    if gameId !in games then NotFound else Found(gameId, games[gameId].players)
  }

  /** `route_request`: the request goes to the game stored under `key`, if there is one, and is
      dropped otherwise. `key` stands for the id the handler reads off the request. */
  function RouteRequest(games: map<Id, Game>, key: Id, request: GameRequest): (r: RouteOutcome)
    ensures r.Forwarded? <==> key in games
    ensures r.Forwarded? ==> r.game == games[key] && r.request == request
    ensures r.Dropped? ==> r.key == key
  {
    if key in games then Forwarded(games[key], request) else Dropped(key)
  }

  /** Every game is stored under its own id, as `create_game` stores them. */
  predicate KeyedById(games: map<Id, Game>)
  {
    forall g :: g in games ==> games[g].id == g
  }

  /** In a directory keyed by game id, `get_game` and the router agree: a game is found with some
      players exactly when a request routed under that id reaches the stored game with those
      players, and the id `get_game` answers with is the stored game's own. */
  lemma LookupsAgree(games: map<Id, Game>, gameId: Id, request: GameRequest)
    requires KeyedById(games)
    ensures GetGame(games, gameId).Found? ==> GetGame(games, gameId).gameId == games[gameId].id
    ensures forall players :: GetGame(games, gameId) == Found(gameId, players) <==>
      RouteRequest(games, gameId, request) == Forwarded(Game(gameId, players), request)
  {
  }

  /** The shared state behind the game server's lock. */
  class GameManagerState {
    var games: map<Id, Game>
    var playerAssignment: map<Id, Id>

    ghost predicate Valid()
      reads this
    {
      KeyedById(games)
    }

    constructor ()
      ensures Valid()
      ensures games == map[] && playerAssignment == map[]
    {
      games := map[];
      playerAssignment := map[];
    }

    /** `create_game`, with `generated` the id `Id::new()` returns. A player list of any length but
        two is rejected; a list naming an assigned player is a conflict; otherwise one game is
        stored under `generated`. The assignment is never written. */
    method CreateGame(request: CreateGameRequest, generated: Id) returns (r: CreateGameResponse)
      requires Valid()
      modifies this
      ensures Valid()
      ensures playerAssignment == old(playerAssignment)
      ensures |request.players| != 2 ==> r == InvalidPlayerCount && games == old(games)
      ensures |request.players| == 2 ==>
        var p1, p2 := request.players[0], request.players[1];
        (r == Conflict <==> p1 in old(playerAssignment) || p2 in old(playerAssignment)) &&
        (r == Conflict ==> games == old(games)) &&
        (r != Conflict ==>
           r == Created(generated) && games == old(games)[generated := Game(generated, (p1, p2))])
      ensures r.Created? && generated !in old(games) ==>
        games.Keys == old(games).Keys + {generated} && |games| == |old(games)| + 1 &&
        forall g :: g in old(games) ==> games[g] == old(games)[g]
    {
      if |request.players| != 2 {
        return InvalidPlayerCount;
      }
      var player1, player2 := request.players[0], request.players[1];
      if player1 in playerAssignment || player2 in playerAssignment {
        return Conflict;
      }
      var game := Game(generated, (player1, player2));
      games := games[generated := game];
      r := Created(generated);
    }
  }

  /** Two games created one after the other for the same two players are both created: creating
      a game records no assignment, so nothing marks the players as busy. */
  method ReusedPlayersScenario(a: Id, b: Id, g1: Id, g2: Id)
    returns (first: CreateGameResponse, second: CreateGameResponse, lookup: GetGameResponse)
    requires g1 != g2
    ensures first == Created(g1) && second == Created(g2)
    ensures lookup == Found(g1, (a, b))
  {
    var state := new GameManagerState();
    first := state.CreateGame(CreateGameRequest(g1, [a, b]), g1);
    second := state.CreateGame(CreateGameRequest(g2, [a, b]), g2);
    lookup := GetGame(state.games, g1);
  }
}
