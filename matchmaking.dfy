/** The matchmaking engine of the central server: a FIFO queue of waiting players, the set of
    queued user ids, the list of games formed so far, and the periodic sweep that pairs
    consecutive arrivals. */
module Matchmaking {
  import opened Messages

  /** A handle on a client's outbound channel (the `sender` a player brings with it). */
  type Mailbox = nat

  datatype Player = Player(id: UserId, sender: Mailbox)

  datatype MatchDetails = MatchDetails(server: GameId)

  datatype MatchmakingResponse = QueueJoined | MatchFound(details: MatchDetails)

  datatype MatchmakingRequest =
    | JoinQueue(player: Player)
    | LeaveQueue(userId: UserId)
    | Disconnected(userId: UserId)

  /** One message put on a player's channel. */
  datatype Delivery = Delivery(to: Player, response: MatchmakingResponse)

  /** The id of a game: the number of games recorded before it. Its text, the string the service
      actually stores and sends, is `GameIdText`. */
  datatype GameId = GameId(gamesBefore: nat)

  /** A game record as the matchmaker keeps it: its id and the two players. */
  datatype Game = Game(id: GameId, player1: Player, player2: Player)

  /** The outcome of `add_user`. */
  datatype AddResult = Ok | Err(reason: string)

  const AlreadyInQueue: string := "User already in queue"

  // ---------------------------------------------------------------------------
  // Game ids: the string "Game: <n> created", where <n> is the number of games so far

  function DigitChar(d: nat): char
    requires d < 10
  {
    (48 + d) as char
  }

  /** The decimal digits of `n`, most significant first. */
  function Decimal(n: nat): (s: string)
    ensures 1 <= |s|
    ensures 10 <= n ==> 2 <= |s|
    decreases n
  {
    if n < 10 then [DigitChar(n)] else Decimal(n / 10) + [DigitChar(n % 10)]
  }

  /** The text `format!("Game: {:?} created", n)`. */
  function GameIdText(id: GameId): string
  {
    "Game: " + Decimal(id.gamesBefore) + " created"
  }

  /** Distinct numbers print differently. */
  lemma {:induction false} DecimalInjective(a: nat, b: nat)
    requires Decimal(a) == Decimal(b)
    ensures a == b
    decreases a
  {
    if 10 <= a && 10 <= b {
      var sa, sb := Decimal(a), Decimal(b);
      assert sa[..|sa| - 1] == Decimal(a / 10);
      assert sb[..|sb| - 1] == Decimal(b / 10);
      assert DigitChar(a % 10) == sa[|sa| - 1] == sb[|sb| - 1] == DigitChar(b % 10);
      DecimalInjective(a / 10, b / 10);
    } else if a < 10 && b < 10 {
      assert DigitChar(a) == Decimal(a)[0] == Decimal(b)[0] == DigitChar(b);
    }
  }

  /** Different game ids have different texts. */
  lemma GameIdTextInjective(a: GameId, b: GameId)
    requires GameIdText(a) == GameIdText(b)
    ensures a == b
  {
    var s := GameIdText(a);
    assert s[6..|s| - 8] == Decimal(a.gamesBefore);
    assert GameIdText(b)[6..|s| - 8] == Decimal(b.gamesBefore);
    DecimalInjective(a.gamesBefore, b.gamesBefore);
  }

  /** The i-th game in the list carries the id made from i. */
  predicate GamesNumbered(games: seq<Game>)
  {
    forall k :: 0 <= k < |games| ==> games[k].id == GameId(k)
  }

  /** Numbering by position makes the text ids of all games recorded so far pairwise distinct. */
  lemma GameIdsDistinct(games: seq<Game>)
    requires GamesNumbered(games)
    ensures forall i, j :: 0 <= i < j < |games| ==> GameIdText(games[i].id) != GameIdText(games[j].id)
  {
    forall i, j | 0 <= i < j < |games|
      ensures GameIdText(games[i].id) != GameIdText(games[j].id)
    {
      if GameIdText(games[i].id) == GameIdText(games[j].id) {
        GameIdTextInjective(games[i].id, games[j].id);
      }
    }
  }

  // ---------------------------------------------------------------------------
  // Queue invariant

  function Ids(s: seq<Player>): set<UserId>
  {
    set p | p in s :: p.id
  }

  lemma IdsAppend(a: seq<Player>, b: seq<Player>)
    ensures Ids(a + b) == Ids(a) + Ids(b)
  {
    forall u | u in Ids(a + b) ensures u in Ids(a) + Ids(b) {
      var p :| p in a + b && p.id == u;
    }
  }

  predicate DistinctIds(s: seq<Player>)
  {
    forall i, j :: 0 <= i < j < |s| ==> s[i].id != s[j].id
  }

  /** No id is queued twice, and every queued id is recorded in the set. The converse does not
      hold: leaving the queue keeps the id in the set. */
  predicate QueueInvariant(q: seq<Player>, users: set<UserId>)
  {
    DistinctIds(q) && Ids(q) <= users
  }

  /** In a queue with distinct ids, the id at position i occurs nowhere else. */
  lemma IdOccursOnce(q: seq<Player>, i: nat, lo: nat, hi: nat)
    requires DistinctIds(q) && i < |q| && lo <= hi <= |q| && (i < lo || hi <= i)
    ensures q[i].id !in Ids(q[lo..hi])
  {
    forall p | p in q[lo..hi] ensures p.id != q[i].id {
      var j :| lo <= j < hi && q[j] == p;
    }
  }

  /** Joining with an id not yet recorded keeps the invariant. */
  lemma JoinKeepsQueueInvariant(q: seq<Player>, users: set<UserId>, p: Player)
    requires QueueInvariant(q, users) && p.id !in users
    ensures QueueInvariant(q + [p], users + {p.id})
  {
    IdsAppend(q, [p]);
    forall i | 0 <= i < |q| ensures q[i].id != p.id {
      assert q[i] in q;
    }
  }

  // ---------------------------------------------------------------------------
  // Leave

  /** The position of the first queued player with id `u`, if any. */
  function FirstIndex(q: seq<Player>, u: UserId): (r: Option<nat>)
    ensures r.Some? ==> r.value < |q| && q[r.value].id == u
    ensures r.Some? ==> forall j :: 0 <= j < r.value ==> q[j].id != u
    ensures r.None? ==> forall j :: 0 <= j < |q| ==> q[j].id != u
    decreases |q|
  {
    if q == [] then None
    else if q[0].id == u then Some(0)
    else match FirstIndex(q[1..], u)
      case None => None
      case Some(i) => Some(i + 1)
  }

  /** The scan `queue.iter().enumerate().find(|(_, user)| user.id == user_id)`. */
  method FindPosition(q: seq<Player>, u: UserId) returns (position: Option<nat>)
    ensures position == FirstIndex(q, u)
  {
    var i := 0;
    while i < |q|
      invariant 0 <= i <= |q|
      invariant forall j :: 0 <= j < i ==> q[j].id != u
    {
      if q[i].id == u {
        return Some(i);
      }
      i := i + 1;
    }
    return None;
  }

  /** The queue after a `LeaveQueue(u)` message: only when `u` is recorded in the set is the first
      queue entry with that id removed; the set itself is never touched. */
  function AfterLeave(q: seq<Player>, users: set<UserId>, u: UserId): seq<Player>
  {
    if u !in users then q
    else match FirstIndex(q, u)
      case Some(i) => q[..i] + q[i + 1..]
      case None => q
  }

  /** The queue with every entry of id `u` filtered out, the others kept in their order. */
  function Without(q: seq<Player>, u: UserId): (r: seq<Player>)
    ensures |r| <= |q|
    ensures forall p :: p in r <==> p in q && p.id != u
    decreases |q|
  {
    if q == [] then []
    else (if q[0].id == u then [] else [q[0]]) + Without(q[1..], u)
  }

  /** Filtering out an id that no entry carries changes nothing. */
  lemma {:induction false} WithoutAbsent(q: seq<Player>, u: UserId)
    requires forall j :: 0 <= j < |q| ==> q[j].id != u
    ensures Without(q, u) == q
    decreases |q|
  {
    if q != [] {
      WithoutAbsent(q[1..], u);
      assert [q[0]] + q[1..] == q;
    }
  }

  /** Removing the entry at position i + 1 of `[x] + t` keeps `x` in front of `t` without its i-th. */
  lemma ConsRemoveAt(x: Player, t: seq<Player>, i: nat)
    requires i < |t|
    ensures [x] + (t[..i] + t[i + 1..]) == ([x] + t)[..i + 1] + ([x] + t)[i + 2..]
  {
    var q := [x] + t;
    assert q[..i + 1] == [x] + t[..i];
    assert q[i + 2..] == t[i + 1..];
  }

  /** In a queue with distinct ids, removing the first entry with id `u` is filtering `u` out. */
  lemma {:induction false} RemoveFirstIsWithout(q: seq<Player>, u: UserId)
    requires DistinctIds(q)
    ensures FirstIndex(q, u).None? ==> Without(q, u) == q
    ensures FirstIndex(q, u).Some? ==>
      var i := FirstIndex(q, u).value; Without(q, u) == q[..i] + q[i + 1..]
    decreases |q|
  {
    if q == [] {
    } else if q[0].id == u {
      WithoutAbsent(q[1..], u);
      assert q[..0] + q[1..] == q[1..];
    } else {
      RemoveFirstIsWithout(q[1..], u);
      match FirstIndex(q[1..], u)
      case None =>
        assert [q[0]] + q[1..] == q;
      case Some(i) =>
        assert [q[0]] + q[1..] == q;
        ConsRemoveAt(q[0], q[1..], i);
    }
  }

  /** Removing the entry at position i from a queue with distinct ids keeps the ids distinct. */
  lemma RemoveAtKeepsDistinct(q: seq<Player>, i: nat)
    requires DistinctIds(q) && i < |q|
    ensures DistinctIds(q[..i] + q[i + 1..])
  {
    var r := q[..i] + q[i + 1..];
    forall a, b | 0 <= a < b < |r| ensures r[a].id != r[b].id {
      var a', b' := if a < i then a else a + 1, if b < i then b else b + 1;
      assert r[a] == q[a'] && r[b] == q[b'];
    }
  }

  /** Removing the entry at position i from a queue with distinct ids forgets exactly its id. */
  lemma RemoveAtForgetsId(q: seq<Player>, i: nat)
    requires DistinctIds(q) && i < |q|
    ensures Ids(q[..i] + q[i + 1..]) == Ids(q) - {q[i].id}
  {
    assert q == q[..i] + [q[i]] + q[i + 1..];
    IdsAppend(q[..i] + [q[i]], q[i + 1..]);
    IdsAppend(q[..i], [q[i]]);
    IdsAppend(q[..i], q[i + 1..]);
    assert Ids([q[i]]) == {q[i].id} by {
      assert q[i] in [q[i]];
    }
    IdOccursOnce(q, i, 0, i);
    IdOccursOnce(q, i, i + 1, |q|);
  }

  /** Under the invariant, leaving drops exactly the id `u` from the queue (removing one entry when
      it was queued, nothing otherwise), keeps the other entries in order and keeps the invariant. */
  lemma LeaveRemovesOnlyThatId(q: seq<Player>, users: set<UserId>, u: UserId)
    requires QueueInvariant(q, users)
    ensures QueueInvariant(AfterLeave(q, users, u), users)
    ensures Ids(AfterLeave(q, users, u)) == Ids(q) - {u}
    ensures u in Ids(q) ==> |AfterLeave(q, users, u)| == |q| - 1
    ensures u !in Ids(q) ==> AfterLeave(q, users, u) == q
    ensures AfterLeave(q, users, u) == Without(q, u)
  {
    RemoveFirstIsWithout(q, u);
    match FirstIndex(q, u)
    case None =>
      forall p | p in q ensures p.id != u {
        var j :| 0 <= j < |q| && q[j] == p;
      }
    case Some(i) =>
      assert q[i] in q;
      RemoveAtKeepsDistinct(q, i);
      RemoveAtForgetsId(q, i);
  }

  // ---------------------------------------------------------------------------
  // Sweep

  /** The matches a sweep forms from the drained queue `q`: the 2nd arrival with the 1st, the 4th
      with the 3rd, and so on, each recorded as (later, earlier). */
  function Pairings(q: seq<Player>): seq<(Player, Player)>
    decreases |q|
  {
    if |q| < 2 then [] else [(q[1], q[0])] + Pairings(q[2..])
  }

  /** The players a sweep puts back into the queue. */
  function Leftover(q: seq<Player>): seq<Player>
  {
    if |q| % 2 == 1 then [q[|q| - 1]] else []
  }

  /** The matched players in their order of arrival. */
  function Arrivals(ms: seq<(Player, Player)>): seq<Player>
  {
    if ms == [] then [] else [ms[0].1, ms[0].0] + Arrivals(ms[1..])
  }

  /** The ids of the matched players. */
  function MatchedIds(ms: seq<(Player, Player)>): set<UserId>
    decreases |ms|
  {
    if ms == [] then {} else {ms[0].0.id, ms[0].1.id} + MatchedIds(ms[1..])
  }

  /** The games a sweep appends, numbered on from `base` games already recorded. */
  function NewGames(base: nat, ms: seq<(Player, Player)>): seq<Game>
    decreases |ms|
  {
    if ms == [] then []
    else [Game(GameId(base), ms[0].0, ms[0].1)] + NewGames(base + 1, ms[1..])
  }

  /** The notifications a sweep sends: for each match, `MatchFound` to the later player and then
      to the earlier one, both naming the match's game. */
  function MatchNotices(base: nat, ms: seq<(Player, Player)>): seq<Delivery>
    decreases |ms|
  {
    if ms == [] then []
    else
      var found := MatchFound(MatchDetails(GameId(base)));
      [Delivery(ms[0].0, found), Delivery(ms[0].1, found)] + MatchNotices(base + 1, ms[1..])
  }

  /** What the player with id `u` finds on its channel, in order. */
  function Outbox(log: seq<Delivery>, u: UserId): seq<MatchmakingResponse>
  {
    if log == [] then []
    else (if log[0].to.id == u then [log[0].response] else []) + Outbox(log[1..], u)
  }

  lemma {:induction false} MatchedIdsOfArrivals(ms: seq<(Player, Player)>)
    ensures MatchedIds(ms) == Ids(Arrivals(ms))
    decreases |ms|
  {
    if ms != [] {
      MatchedIdsOfArrivals(ms[1..]);
      IdsAppend([ms[0].1, ms[0].0], Arrivals(ms[1..]));
      assert Ids([ms[0].1, ms[0].0]) == {ms[0].0.id, ms[0].1.id} by {
        assert ms[0].0 in [ms[0].1, ms[0].0] && ms[0].1 in [ms[0].1, ms[0].0];
      }
    }
  }

  lemma {:induction false} MatchedIdsAppend(a: seq<(Player, Player)>, b: seq<(Player, Player)>)
    ensures MatchedIds(a + b) == MatchedIds(a) + MatchedIds(b)
    decreases |a|
  {
    if a == [] {
      assert a + b == b;
    } else {
      assert (a + b)[0] == a[0] && (a + b)[1..] == a[1..] + b;
      MatchedIdsAppend(a[1..], b);
    }
  }

  lemma {:induction false} NewGamesAppend(base: nat, a: seq<(Player, Player)>, b: seq<(Player, Player)>)
    ensures NewGames(base, a + b) == NewGames(base, a) + NewGames(base + |a|, b)
    decreases |a|
  {
    if a == [] {
      assert a + b == b;
    } else {
      assert (a + b)[0] == a[0] && (a + b)[1..] == a[1..] + b;
      NewGamesAppend(base + 1, a[1..], b);
    }
  }

  lemma {:induction false} MatchNoticesAppend(base: nat, a: seq<(Player, Player)>, b: seq<(Player, Player)>)
    ensures MatchNotices(base, a + b) == MatchNotices(base, a) + MatchNotices(base + |a|, b)
    decreases |a|
  {
    if a == [] {
      assert a + b == b;
    } else {
      assert (a + b)[0] == a[0] && (a + b)[1..] == a[1..] + b;
      MatchNoticesAppend(base + 1, a[1..], b);
    }
  }

  /** The records of the first k + 1 matches are those of the first k followed by the (k+1)-th's. */
  lemma ExtendByOneMatch(base: nat, ms: seq<(Player, Player)>, k: nat)
    requires k < |ms|
    ensures MatchedIds(ms[..k + 1]) == MatchedIds(ms[..k]) + MatchedIds([ms[k]])
    ensures NewGames(base, ms[..k + 1]) == NewGames(base, ms[..k]) + NewGames(base + k, [ms[k]])
    ensures MatchNotices(base, ms[..k + 1]) == MatchNotices(base, ms[..k]) + MatchNotices(base + k, [ms[k]])
  {
    assert ms[..k + 1] == ms[..k] + [ms[k]];
    MatchedIdsAppend(ms[..k], [ms[k]]);
    NewGamesAppend(base, ms[..k], [ms[k]]);
    MatchNoticesAppend(base, ms[..k], [ms[k]]);
  }

  /** A sweep over n players forms floor(n/2) matches and puts back n mod 2 players. */
  lemma {:induction false} PairingsLength(q: seq<Player>)
    ensures |Pairings(q)| == |q| / 2 && |Leftover(q)| == |q| % 2
    decreases |q|
  {
    if 2 <= |q| {
      PairingsLength(q[2..]);
    }
  }

  /** The (k+1)-th match of a sweep pairs the player at position 2k+1 with the one at 2k. */
  lemma {:induction false} PairingsAt(q: seq<Player>, k: nat)
    requires k < |q| / 2
    ensures k < |Pairings(q)| && Pairings(q)[k] == (q[2 * k + 1], q[2 * k])
    decreases k
  {
    PairingsLength(q);
    if 0 < k {
      var rest := q[2..];
      PairingsAt(rest, k - 1);
      assert Pairings(q)[k] == Pairings(rest)[k - 1];
    }
  }

  /** No player is lost or duplicated by a sweep: the matched players in arrival order followed
      by the leftover are exactly the drained queue. */
  lemma {:induction false} PairingsPartition(q: seq<Player>)
    ensures Arrivals(Pairings(q)) + Leftover(q) == q
    decreases |q|
  {
    if 2 <= |q| {
      PairingsPartition(q[2..]);
      assert Pairings(q)[1..] == Pairings(q[2..]);
      assert Leftover(q) == Leftover(q[2..]);
      assert q == [q[0], q[1]] + q[2..];
    }
  }

  /** The ids a sweep removes from the set are those of the matched players: all drained ids
      except the leftover's, which stays recorded; the queue invariant survives the sweep. */
  lemma SweepKeepsQueueInvariant(q: seq<Player>, users: set<UserId>)
    requires QueueInvariant(q, users)
    ensures MatchedIds(Pairings(q)) == Ids(q) - Ids(Leftover(q))
    ensures QueueInvariant(Leftover(q), users - MatchedIds(Pairings(q)))
  {
    var a, l := Arrivals(Pairings(q)), Leftover(q);
    PairingsPartition(q);
    MatchedIdsOfArrivals(Pairings(q));
    IdsAppend(a, l);
    if |q| % 2 == 1 {
      assert a == q[..|q| - 1];
      IdOccursOnce(q, |q| - 1, 0, |q| - 1);
      assert Ids(l) == {q[|q| - 1].id};
    }
  }

  /** Ids that no sweep match names receive nothing from the sweep. */
  lemma {:induction false} NoticesSkipOthers(base: nat, ms: seq<(Player, Player)>, u: UserId)
    requires u !in Ids(Arrivals(ms))
    ensures Outbox(MatchNotices(base, ms), u) == []
    decreases |ms|
  {
    if ms != [] {
      var found := MatchFound(MatchDetails(GameId(base)));
      var head := [Delivery(ms[0].0, found), Delivery(ms[0].1, found)];
      IdsAppend([ms[0].1, ms[0].0], Arrivals(ms[1..]));
      assert ms[0].0 in [ms[0].1, ms[0].0] && ms[0].1 in [ms[0].1, ms[0].0];
      NoticesSkipOthers(base + 1, ms[1..], u);
      OutboxAppend(head, MatchNotices(base + 1, ms[1..]), u);
    }
  }

  lemma {:induction false} OutboxAppend(a: seq<Delivery>, b: seq<Delivery>, u: UserId)
    ensures Outbox(a + b, u) == Outbox(a, u) + Outbox(b, u)
    decreases |a|
  {
    if a == [] {
      assert a + b == b;
    } else {
      assert (a + b)[0] == a[0] && (a + b)[1..] == a[1..] + b;
      OutboxAppend(a[1..], b, u);
    }
  }

  /** The notifications of a sweep: those of its first match, then those of the rest. */
  lemma FirstMatchNotices(base: nat, q: seq<Player>)
    requires 2 <= |q|
    ensures MatchNotices(base, Pairings(q)) ==
      [Delivery(q[1], MatchFound(MatchDetails(GameId(base)))), Delivery(q[0], MatchFound(MatchDetails(GameId(base))))]
      + MatchNotices(base + 1, Pairings(q[2..]))
  {
    assert Pairings(q)[0] == (q[1], q[0]) && Pairings(q)[1..] == Pairings(q[2..]);
  }

  /** The first two players of a sweep over distinct ids are told about the first game, once. */
  lemma FirstPairNotifiedOnce(base: nat, q: seq<Player>, i: nat)
    requires DistinctIds(q) && 2 <= |q| && i < 2
    ensures Outbox(MatchNotices(base, Pairings(q)), q[i].id) == [MatchFound(MatchDetails(GameId(base)))]
  {
    var found := MatchFound(MatchDetails(GameId(base)));
    var head := [Delivery(q[1], found), Delivery(q[0], found)];
    var tail := MatchNotices(base + 1, Pairings(q[2..]));
    FirstMatchNotices(base, q);
    OutboxAppend(head, tail, q[i].id);
    assert Outbox(head, q[i].id) == [found] by {
      assert head[1..] == [Delivery(q[0], found)] && head[1..][1..] == [];
    }
    PairingsPartition(q[2..]);
    IdsAppend(Arrivals(Pairings(q[2..])), Leftover(q[2..]));
    IdOccursOnce(q, i, 2, |q|);
    NoticesSkipOthers(base + 1, Pairings(q[2..]), q[i].id);
  }

  /** In a sweep over players with distinct ids, both players of the (k+1)-th match receive exactly
      one notification, `MatchFound`, and both carry the same game id. */
  lemma {:induction false} MatchFoundOnce(base: nat, q: seq<Player>, k: nat)
    requires DistinctIds(q) && k < |q| / 2
    ensures Outbox(MatchNotices(base, Pairings(q)), q[2 * k].id) == [MatchFound(MatchDetails(GameId(base + k)))]
    ensures Outbox(MatchNotices(base, Pairings(q)), q[2 * k + 1].id) == [MatchFound(MatchDetails(GameId(base + k)))]
    decreases k
  {
    if k == 0 {
      FirstPairNotifiedOnce(base, q, 0);
      FirstPairNotifiedOnce(base, q, 1);
    } else {
      var found := MatchFound(MatchDetails(GameId(base)));
      var head := [Delivery(q[1], found), Delivery(q[0], found)];
      var tail := MatchNotices(base + 1, Pairings(q[2..]));
      FirstMatchNotices(base, q);
      OutboxAppend(head, tail, q[2 * k].id);
      OutboxAppend(head, tail, q[2 * k + 1].id);
      assert q[2 * k].id != q[0].id && q[2 * k].id != q[1].id;
      assert q[2 * k + 1].id != q[0].id && q[2 * k + 1].id != q[1].id;
      assert q[2..][2 * (k - 1)] == q[2 * k] && q[2..][2 * (k - 1) + 1] == q[2 * k + 1];
      MatchFoundOnce(base + 1, q[2..], k - 1);
    }
  }

  /** In a sweep over players with distinct ids, the leftover player and every id not drained get
      no notification. */
  lemma UnmatchedNotNotified(base: nat, q: seq<Player>, u: UserId)
    requires DistinctIds(q)
    requires u !in Ids(q) || (|q| % 2 == 1 && u == q[|q| - 1].id)
    ensures Outbox(MatchNotices(base, Pairings(q)), u) == []
  {
    SweepKeepsQueueInvariant(q, Ids(q));
    MatchedIdsOfArrivals(Pairings(q));
    NoticesSkipOthers(base, Pairings(q), u);
  }

  /** The games a sweep appends: one per match, in match order, numbered on from `base`. */
  lemma {:induction false} NewGamesShape(base: nat, ms: seq<(Player, Player)>)
    ensures |NewGames(base, ms)| == |ms|
    ensures forall k :: 0 <= k < |ms| ==> NewGames(base, ms)[k] == Game(GameId(base + k), ms[k].0, ms[k].1)
    decreases |ms|
  {
    if ms != [] {
      NewGamesShape(base + 1, ms[1..]);
      forall k | 0 <= k < |ms| ensures NewGames(base, ms)[k] == Game(GameId(base + k), ms[k].0, ms[k].1) {
        if 0 < k {
          assert NewGames(base, ms)[k] == NewGames(base + 1, ms[1..])[k - 1];
        }
      }
    }
  }

  // ---------------------------------------------------------------------------
  // The service

  class MatchmakingService {
    var queue: seq<Player>
    var usersInQueue: set<UserId>
    var games: seq<Game>
    /** Every message the service has put on a player's channel, oldest first. */
    var sent: seq<Delivery>

    ghost predicate Valid()
      reads this
    {
      QueueInvariant(queue, usersInQueue) && GamesNumbered(games)
    }

    constructor ()
      ensures Valid()
      ensures queue == [] && usersInQueue == {} && games == [] && sent == []
    {
      queue := [];
      usersInQueue := {};
      games := [];
      sent := [];
    }

    /** `add_user`: a player whose id is already recorded is refused; otherwise it joins the back of
        the queue and its id is recorded. */
    method AddUser(player: Player) returns (r: AddResult)
      requires Valid()
      modifies this
      ensures Valid()
      ensures r == Ok <==> player.id !in old(usersInQueue)
      ensures r.Err? ==> r.reason == AlreadyInQueue
      ensures r == Ok ==> queue == old(queue) + [player] && usersInQueue == old(usersInQueue) + {player.id}
      ensures r.Err? ==> queue == old(queue) && usersInQueue == old(usersInQueue)
      ensures games == old(games) && sent == old(sent)
      ensures old(usersInQueue) == Ids(old(queue)) ==> usersInQueue == Ids(queue)
    {
      if player.id !in usersInQueue {
        JoinKeepsQueueInvariant(queue, usersInQueue, player);
        IdsAppend(queue, [player]);
        assert Ids([player]) == {player.id} by {
          assert player in [player];
        }
        queue := queue + [player];
        usersInQueue := usersInQueue + {player.id};
        r := Ok;
      } else {
        r := Err(AlreadyInQueue);
      }
    }

    /** `read_queue`: drain the queue pairing consecutive arrivals, then record a game and notify
        both players for each match, and put the unmatched player (if any) back. */
    method ReadQueue()
      requires Valid()
      modifies this
      ensures Valid()
      ensures queue == Leftover(old(queue))
      ensures usersInQueue == old(usersInQueue) - MatchedIds(Pairings(old(queue)))
      ensures games == old(games) + NewGames(|old(games)|, Pairings(old(queue)))
      ensures sent == old(sent) + MatchNotices(|old(games)|, Pairings(old(queue)))
      ensures old(usersInQueue) == Ids(old(queue)) ==> usersInQueue == Ids(queue)
    {
      SweepKeepsQueueInvariant(queue, usersInQueue);
      var unmatched, matches := DrainInPairs();
      RecordMatches(matches);
      queue := unmatched;
    }

    /** The `for (player1, player2) in matches.iter()` loop of `read_queue`. */
    method RecordMatches(matches: seq<(Player, Player)>)
      requires GamesNumbered(games)
      modifies this
      ensures GamesNumbered(games)
      ensures queue == old(queue)
      ensures usersInQueue == old(usersInQueue) - MatchedIds(matches)
      ensures games == old(games) + NewGames(|old(games)|, matches)
      ensures sent == old(sent) + MatchNotices(|old(games)|, matches)
    {
      var base := |games|;
      var k := 0;
      while k < |matches|
        invariant 0 <= k <= |matches|
        invariant |games| == base + k && GamesNumbered(games) && queue == old(queue)
        invariant usersInQueue == old(usersInQueue) - MatchedIds(matches[..k])
        invariant games == old(games) + NewGames(base, matches[..k])
        invariant sent == old(sent) + MatchNotices(base, matches[..k])
      {
        var player1, player2 := matches[k].0, matches[k].1;
        ExtendByOneMatch(base, matches, k);
        RecordMatch(player1, player2);
        k := k + 1;
      }
      assert matches[..k] == matches;
    }

    /** The `while let Some(player) = self.queue.pop_front()` loop of `read_queue`: each arrival
        is matched with the player waiting unmatched, if there is one, and waits otherwise. */
    method DrainInPairs() returns (unmatched: seq<Player>, matches: seq<(Player, Player)>)
      modifies this
      ensures queue == [] && usersInQueue == old(usersInQueue) && games == old(games) && sent == old(sent)
      ensures matches == Pairings(old(queue)) && unmatched == Leftover(old(queue))
    {
      ghost var q0 := queue;
      ghost var drained := 0;
      unmatched, matches := [], [];
      while queue != []
        invariant 0 <= drained <= |q0| && queue == q0[drained..]
        invariant |matches| == drained / 2
        invariant forall k :: 0 <= k < |matches| ==> matches[k] == (q0[2 * k + 1], q0[2 * k])
        invariant unmatched == if drained % 2 == 1 then [q0[drained - 1]] else []
        invariant usersInQueue == old(usersInQueue) && games == old(games) && sent == old(sent)
        decreases |queue|
      {
        var player := queue[0];
        queue := queue[1..];
        drained := drained + 1;
        if unmatched != [] {
          var enemy := unmatched[0];
          unmatched := unmatched[1..];
          matches := matches + [(player, enemy)];
          continue;
        }
        unmatched := unmatched + [player];
      }
      PairingsLength(q0);
      forall k | 0 <= k < |matches| ensures matches[k] == Pairings(q0)[k] {
        PairingsAt(q0, k);
      }
    }

    /** One turn of the loop over the matches: forget both ids, record the game under the id
        printed from the current number of games, and send `MatchFound` to both players. */
    method RecordMatch(player1: Player, player2: Player)
      modifies this
      ensures queue == old(queue)
      ensures usersInQueue == old(usersInQueue) - MatchedIds([(player1, player2)])
      ensures games == old(games) + NewGames(|old(games)|, [(player1, player2)])
      ensures sent == old(sent) + MatchNotices(|old(games)|, [(player1, player2)])
    {
      usersInQueue := usersInQueue - {player1.id};
      usersInQueue := usersInQueue - {player2.id};
      var game := Game(GameId(|games|), player1, player2);
      sent := sent + [Delivery(player1, MatchFound(MatchDetails(game.id)))];
      sent := sent + [Delivery(player2, MatchFound(MatchDetails(game.id)))];
      games := games + [game];
    }

    /** `handle_message`: one message from the socket layer, or none when the channel yielded
        nothing. */
    method HandleMessage(message: Option<MatchmakingRequest>)
      requires Valid()
      modifies this
      ensures Valid()
      ensures games == old(games)
      ensures message.None? ==>
        queue == old(queue) && usersInQueue == old(usersInQueue) && sent == old(sent)
      ensures message.Some? && message.value.JoinQueue? ==>
        var p := message.value.player;
        queue == (if p.id in old(usersInQueue) then old(queue) else old(queue) + [p]) &&
        usersInQueue == old(usersInQueue) + {p.id} &&
        sent == old(sent) + [Delivery(p, QueueJoined)]
      ensures message.Some? && message.value.LeaveQueue? ==>
        queue == AfterLeave(old(queue), old(usersInQueue), message.value.userId) &&
        usersInQueue == old(usersInQueue) && sent == old(sent)
      ensures message.Some? && message.value.Disconnected? ==>
        queue == old(queue) && usersInQueue == old(usersInQueue) && sent == old(sent)
      ensures (message.None? || !message.value.LeaveQueue?) && old(usersInQueue) == Ids(old(queue)) ==>
        usersInQueue == Ids(queue)
      ensures message.Some? && message.value.LeaveQueue? && message.value.userId in Ids(old(queue)) ==>
        message.value.userId in usersInQueue && message.value.userId !in Ids(queue)
    {
      if message.None? {
        return;
      }
      match message.value
      case JoinQueue(player) =>
        var ignored := AddUser(player);
        sent := sent + [Delivery(player, QueueJoined)];
      case LeaveQueue(userId) =>
        LeaveRemovesOnlyThatId(queue, usersInQueue, userId);
        if userId in usersInQueue {
          var position := FindPosition(queue, userId);
          if position.Some? {
            queue := queue[..position.value] + queue[position.value + 1..];
          }
        }
      case Disconnected(userId) =>
    }
  }

  // ---------------------------------------------------------------------------
  // Scenarios

  /** The first round of `ThreeThenOneScenario`: a, b, c join an empty service and a sweep pairs
      b with a, keeping c queued. */
  method JoinThreeAndSweep(service: MatchmakingService, a: Player, b: Player, c: Player)
    requires service.Valid() && service.queue == [] && service.usersInQueue == {} && service.games == []
    requires a.id != b.id && a.id != c.id && b.id != c.id
    modifies service
    ensures service.Valid()
    ensures service.queue == [c] && service.usersInQueue == {c.id}
    ensures service.games == [Game(GameId(0), b, a)]
  {
    var joined := service.AddUser(a);
    assert joined == Ok && service.usersInQueue == {a.id};
    joined := service.AddUser(b);
    assert joined == Ok && service.usersInQueue == {a.id, b.id};
    joined := service.AddUser(c);
    assert joined == Ok && service.queue == [a, b, c];
    assert Pairings([a, b, c]) == [(b, a)] && Leftover([a, b, c]) == [c];
    assert MatchedIds([(b, a)]) == {b.id, a.id};
    service.ReadQueue();
  }

  /** Three players join in the order a, b, c; a sweep pairs b with a and keeps c; d joins and a
      second sweep pairs d with c under the next game id. */
  method ThreeThenOneScenario(a: Player, b: Player, c: Player, d: Player)
    returns (afterFirst: seq<Player>, afterSecond: seq<Player>, games: seq<Game>)
    requires a.id != b.id && a.id != c.id && a.id != d.id && b.id != c.id && b.id != d.id && c.id != d.id
    ensures afterFirst == [c] && afterSecond == []
    ensures games == [Game(GameId(0), b, a), Game(GameId(1), d, c)]
  {
    var service := new MatchmakingService();
    JoinThreeAndSweep(service, a, b, c);
    afterFirst := service.queue;
    var joined := service.AddUser(d);
    assert service.queue == [c, d];
    assert Pairings([c, d]) == [(d, c)];
    assert |[c, d]| % 2 == 0;
    assert Leftover([c, d]) == [];
    service.ReadQueue();
    afterSecond := service.queue;
    games := service.games;
  }

  /** A player who joins and then leaves cannot join again: leaving keeps its id recorded, so the
      second join leaves the queue empty, yet `QueueJoined` is sent both times. */
  method LeaveThenRejoinScenario(p: Player) returns (queue: seq<Player>, outbox: seq<MatchmakingResponse>)
    ensures queue == []
    ensures outbox == [QueueJoined, QueueJoined]
  {
    var service := new MatchmakingService();
    service.HandleMessage(Some(JoinQueue(p)));
    assert FirstIndex([p], p.id) == Some(0);
    service.HandleMessage(Some(LeaveQueue(p.id)));
    service.HandleMessage(Some(JoinQueue(p)));
    queue := service.queue;
    var log := service.sent;
    assert log == [Delivery(p, QueueJoined), Delivery(p, QueueJoined)];
    assert log[1..] == [Delivery(p, QueueJoined)] && log[1..][1..] == [];
    assert Outbox(log[1..], p.id) == [QueueJoined];
    outbox := Outbox(log, p.id);
  }
}
