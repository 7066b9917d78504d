# Matchmaking simulator core, modelled in Dafny

This project models the two stateful cores of a matchmaking simulator written in Rust:

- **The matchmaking engine** of the central server (`MatchmakingService`). It holds a FIFO queue of
  waiting players, the set of user ids recorded as queued, and the list of games formed so far.
  It handles `JoinQueue`, `LeaveQueue` and `Disconnected` messages. A periodic sweep (`read_queue`)
  drains the queue and pairs consecutive arrivals. It records a game for each pair, sends
  `MatchFound` to both players and puts an unmatched player back.
- **The game directory** of the game server (`GameManagerState`). It maps game ids to games, next
  to a map from players to games. It has the `create_game` and `get_game` handlers and the router
  that forwards player requests to a game.

Files:

- `messages.dfy` (module `Messages`): the UUID-backed `Id` and an `Option` type.
- `matchmaking.dfy` (module `Matchmaking`): the engine. `MatchmakingService` is a class whose
  methods update `queue`, `usersInQueue` and `games` in place, as the Rust methods do. The sweep
  is proved against the pure functions `Pairings`, `Leftover`, `MatchedIds`, `NewGames` and
  `MatchNotices`. The lemmas about those functions carry the properties.
- `game_manager.dfy` (module `GameManager`): `GameManagerState` is a class with the two maps.
  `CreateGame` updates `games` in place after its guards. `GetGame` and `RouteRequest` are pure
  lookups over the map.

Each player's channel is modelled as a mailbox. The engine keeps `sent`, the log of every message
it put on a player's channel, each entry tagged with the recipient `Player`. `Outbox(sent, u)` is
what the player with id `u` finds on its channel. The object invariant `Valid()` of the engine says:

- no id is queued twice;
- every queued id is recorded in `usersInQueue`;
- the k-th game carries the id made from k.

The converse of the second point, that every recorded id is queued, is kept by joins, by sweeps
and by the messages that change nothing. `AddUser`, `ReadQueue` and `HandleMessage` each state
this. Only a `LeaveQueue` for a queued id breaks it, because leaving keeps the id recorded.

A game id in the source is the string `"Game: <n> created"`, where `<n>` is the number of games
recorded before it. The model keeps the number (`GameId(n)`). `GameIdText` gives the exact string.
`GameIdTextInjective` proves that different numbers print as different strings, so the distinct
numbers that `Valid()` maintains mean distinct string ids, across sweeps too.

### Where the code departs from its evident intent

The model follows the code as written in each of these cases:

- `LeaveQueue` takes the player out of the queue, but not out of `users_in_queue`. The
  `if self.users_in_queue.contains(&user_id) {}` at matchmaking.rs:153 has an empty body, where
  a removal evidently belongs. A player who left therefore cannot join again until a sweep removes
  the id, which only happens when it is matched. It never is, since it is no longer queued.
  `LeaveThenRejoinScenario` shows this.
- `JoinQueue` answers `QueueJoined` whether or not `add_user` accepted the player. The result of
  `add_user` is discarded at matchmaking.rs:127, so a refused join is not reported.
- `create_game` refuses a player already in `player_assignment` with "A player is already in a
  game" (game_manager.rs:142-147). It never writes `player_assignment`, so the refusal can never
  happen and a second creation with the same players succeeds. `ReusedPlayersScenario` shows this.
- `create_game` panics with "Expected 2 player IDs" on a player list of another length. The model
  returns `InvalidPlayerCount` and leaves the state unchanged. The panic happens before any write,
  and unwinding releases the lock.

## Model

| member | source | states |
|---|---|---|
| `Matchmaking.MatchmakingService.constructor` | src/central-server/src/service/matchmaking.rs:70-76 | A new service has an empty queue, no recorded ids and no games, and satisfies the invariant |
| `Matchmaking.MatchmakingService.AddUser` | src/central-server/src/service/matchmaking.rs:77-87 | Succeeds exactly when the id is not recorded. On success the player is appended at the back of the queue and its id is recorded. On refusal it returns `Err("User already in queue")` and the queue and set are unchanged. The invariant is kept, and a set equal to the queued ids stays equal to them |
| `Matchmaking.JoinKeepsQueueInvariant` | src/central-server/src/service/matchmaking.rs:79-82 | Appending a player whose id is not recorded, and recording it, keeps queue ids distinct and recorded |
| `Matchmaking.MatchmakingService.ReadQueue` | src/central-server/src/service/matchmaking.rs:32-68 | After a sweep the queue is `Leftover` of the old queue. The set loses exactly `MatchedIds(Pairings(old queue))`. `games` gains `NewGames` and `sent` gains `MatchNotices` for those pairings. The invariant is kept, and a set equal to the queued ids stays equal to them |
| `Matchmaking.MatchmakingService.DrainInPairs` | src/central-server/src/service/matchmaking.rs:35-44 | The `while let ... pop_front` loop empties the queue and produces exactly `Pairings` of it as matches and `Leftover` of it as unmatched players |
| `Matchmaking.MatchmakingService.RecordMatches` | src/central-server/src/service/matchmaking.rs:45-66 | The loop over matches removes exactly the matched ids, appends one game per match numbered from the current game count, and appends two `MatchFound` sends per match |
| `Matchmaking.MatchmakingService.RecordMatch` | src/central-server/src/service/matchmaking.rs:46-65 | One match: both ids are forgotten, the game is recorded under the next id, and `MatchFound` goes to player1 and then to player2 |
| `Matchmaking.PairingsLength` | src/central-server/src/service/matchmaking.rs:37-44 | A sweep over n players forms floor(n/2) matches and puts back n mod 2 players |
| `Matchmaking.PairingsAt` | src/central-server/src/service/matchmaking.rs:38-40 | The (k+1)-th match is (player 2k+1, player 2k), so the later arrival comes first |
| `Matchmaking.PairingsPartition` | src/central-server/src/service/matchmaking.rs:37-44 | The matched players in arrival order, followed by the leftover, are exactly the drained queue. No player is lost, duplicated or reordered |
| `Matchmaking.SweepKeepsQueueInvariant` | src/central-server/src/service/matchmaking.rs:45-47 | The removed ids are all drained ids except the leftover's, which stays recorded. The invariant holds for the leftover queue and the reduced set |
| `Matchmaking.NewGamesShape` | src/central-server/src/service/matchmaking.rs:48-52 | A sweep appends one game per match, in match order. Game k holds the match's two players and the id made from `base + k` |
| `Matchmaking.MatchFoundOnce` | src/central-server/src/service/matchmaking.rs:53-64 | For distinct queued ids, both players of the (k+1)-th match receive exactly one message from the sweep. It is `MatchFound`, and both carry the same game id |
| `Matchmaking.UnmatchedNotNotified` | src/central-server/src/service/matchmaking.rs:45-67 | The leftover player, and any id that was not drained, receive nothing from the sweep |
| `Matchmaking.NoticesSkipOthers` | src/central-server/src/service/matchmaking.rs:53-64 | Sweep messages go only to the players named in a match |
| `Matchmaking.Decimal` | src/central-server/src/service/matchmaking.rs:49 | The decimal text of a number has at least one digit, and at least two from 10 on |
| `Matchmaking.DecimalInjective` | src/central-server/src/service/matchmaking.rs:49 | Different numbers print as different decimal texts |
| `Matchmaking.GameIdTextInjective` | src/central-server/src/service/matchmaking.rs:49 | Different game ids give different `"Game: <n> created"` strings |
| `Matchmaking.GameIdsDistinct` | src/central-server/src/service/matchmaking.rs:48-65 | When game k carries the id made from k, as the invariant keeps, the string ids of all recorded games are pairwise distinct |
| `Matchmaking.MatchmakingService.HandleMessage` | src/central-server/src/service/matchmaking.rs:116-159 | An empty message and `Disconnected` change nothing. `JoinQueue` behaves as `AddUser` and then appends `QueueJoined` for the player whether or not the join succeeded. `LeaveQueue` sets the queue to `AfterLeave` and leaves the set and the log unchanged. Every message but `LeaveQueue` keeps a set equal to the queued ids equal to them. A `LeaveQueue` for a queued id leaves that id recorded but no longer queued |
| `Matchmaking.FirstIndex` | src/central-server/src/service/matchmaking.rs:136-140 | The returned position holds the id and no earlier position does. No position is returned only when the id is absent |
| `Matchmaking.FindPosition` | src/central-server/src/service/matchmaking.rs:136-141 | The scan over the queue returns the first position holding the id, or none |
| `Matchmaking.LeaveRemovesOnlyThatId` | src/central-server/src/service/matchmaking.rs:133-154 | Under the invariant, leaving removes exactly one entry when the id is queued and otherwise changes nothing. The other entries keep their order, the queued ids lose exactly that id, and the invariant holds with the set unchanged. The result equals `Without(q, u)`, the queue with that id filtered out and the other entries kept in their order |
| `Matchmaking.RemoveFirstIsWithout` | src/central-server/src/service/matchmaking.rs:136-143 | In a queue with distinct ids, removing the first entry with the id, when there is one, gives the same queue as filtering that id out, with the other entries in their order. When there is none, the queue is unchanged |
| `Matchmaking.RemoveAtKeepsDistinct` | src/central-server/src/service/matchmaking.rs:143 | Removing one entry from a queue with distinct ids keeps the ids distinct |
| `Matchmaking.RemoveAtForgetsId` | src/central-server/src/service/matchmaking.rs:143 | Removing one entry from a queue with distinct ids removes exactly that entry's id from the queued ids |
| `Matchmaking.JoinThreeAndSweep` | src/central-server/src/service/matchmaking.rs:32-87 | On an empty service, a, b, c join and a sweep records the game (b, a) as game 0. c stays queued, and its id is the only one recorded |
| `Matchmaking.ThreeThenOneScenario` | src/central-server/src/service/matchmaking.rs:37-67 | a, b, c join, and a sweep pairs b with a and leaves c queued. d joins, and a second sweep pairs d with c under the next game id, leaving the queue empty |
| `Matchmaking.LeaveThenRejoinScenario` | src/central-server/src/service/matchmaking.rs:122-154 | Join, leave, join again: the queue ends empty because the second join is refused, yet the player received `QueueJoined` twice |
| `GameManager.GameManagerState.constructor` | src/game-server/src/service/game_manager.rs:49-52 | The directory starts with no games and no assignments |
| `GameManager.GameManagerState.CreateGame` | src/game-server/src/service/game_manager.rs:132-165 | A player list whose length is not 2 is rejected and changes nothing. If either player is assigned the result is `Conflict` and nothing changes. Otherwise exactly one game `(generated, (player_1, player_2))` is stored and `Created(generated)` is returned. `player_assignment` is never modified. With a fresh id, one key is added and every existing entry is unchanged |
| `GameManager.GetGame` | src/game-server/src/service/game_manager.rs:171-184 | Not found exactly when the id is not a key. Otherwise the result is OK with that id and the stored player pair. It is a function of the map, so nothing changes |
| `GameManager.RouteRequest` | src/game-server/src/service/game_manager.rs:86-95 | The request is forwarded, unchanged, to the game stored under the lookup key exactly when the key is present. Otherwise it is dropped, and the state is not touched in either case |
| `GameManager.LookupsAgree` | src/game-server/src/service/game_manager.rs:86-95 | In a directory where every game is stored under its own id, as `create_game` stores them, `get_game` finds a game with given players exactly when a request routed under that id reaches the stored game with those players. The id `get_game` answers with is the stored game's own |
| `GameManager.ReusedPlayersScenario` | src/game-server/src/service/game_manager.rs:143-158 | Two creations with the same two players both succeed, and the first game is still found with its players |

## Left out

- The `listen` loops: the `select!` over the shutdown signal, the socket channel and the 5-second timer (matchmaking.rs:89-114), and the router loop and server wiring (game_manager.rs:43-84). Each message and each sweep is modelled as one sequential step. The lock around the directory is not modelled, because every operation runs under it.
- The HTTP layer: routing, binding, serving, `StatusCode` and `Json` encoding, and `TraceLayer` (game_manager.rs:101-130). Responses are datatypes.
- Channel sends are recorded in the log `sent` and always succeed in the model. The source ignores their errors, and logs `is_closed`. The capacity of 100 and blocking on a full channel are not modelled.
- `Id::new()` is random. `CreateGame` takes the generated id as a parameter and does not assume it is fresh: the contract gives the overwrite the map would do, and separately what holds when the id is fresh.
- The `game_id` field of a creation request is ignored by the handler, and so by the model.
- RouteRequest: the lookup key is a parameter. The handler reads `request.player.id`, which no variant of `GameRequest` has. The model records the routing decision and not the delivery. In the source the send at game_manager.rs:92 is never awaited, and the receiving half of each game's channel is dropped when `create_game` returns (game_manager.rs:151-157), so at run time nothing would reach a game.
- The `to_game` sender and the per-game mutex of a stored game are not modelled. A game is its id and its players.
- Logging (`tracing` calls) and the text of warnings.
- Game ids are modelled as the count they are printed from. Their text is `GameIdText`.
- `Id` is a 128-bit value, and only its equality is used. Serde (de)serialisation of ids is not modelled.
- The `Move`/`Result` types beyond their use as request payloads. The clients, the web socket layer and process wiring are not part of this model.
