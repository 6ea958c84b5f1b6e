/**
 * The scoreboard screen's logic: handlers that drive both containers, and the
 * score-card view, which sorts a copy of the player list and puts a crown on
 * its first card.
 */
module App {
  import opened Text
  import opened Players
  import opened Game

  /**
   * The sort comparator: negative puts `a` first, positive puts `b` first.
   * `a` may stay ahead of `b` exactly when its total is at least as good:
   * higher or equal in highest-wins, lower or equal in the other two modes.
   */
  function Compare(mode: GameMode, a: Player, b: Player): (c: int)
    ensures mode == HighestWins ==> (c <= 0 <==> a.totalScore >= b.totalScore)
    ensures mode != HighestWins ==> (c <= 0 <==> a.totalScore <= b.totalScore)
    ensures c == 0 <==> a.totalScore == b.totalScore
  {
    if mode == HighestWins then b.totalScore - a.totalScore else a.totalScore - b.totalScore
  }

  /** Every pair in list order agrees with the comparator. */
  predicate SortedFor(mode: GameMode, s: seq<Player>) {
    forall i, j :: 0 <= i < j < |s| ==> Compare(mode, s[i], s[j]) <= 0
  }

  /** In a sorted list the first element comes before every element. */
  lemma HeadFirst(mode: GameMode, s: seq<Player>)
    requires SortedFor(mode, s) && s != []
    ensures forall x :: x in s ==> Compare(mode, s[0], x) <= 0
  {
    forall x | x in s ensures Compare(mode, s[0], x) <= 0 {
      var j :| 0 <= j < |s| && s[j] == x;
      if j > 0 { assert Compare(mode, s[0], s[j]) <= 0; }
    }
  }

  /** Putting an element that comes before all of a sorted list in front of it keeps it sorted. */
  lemma SortedCons(mode: GameMode, a: Player, s: seq<Player>)
    requires SortedFor(mode, s)
    requires forall x :: x in s ==> Compare(mode, a, x) <= 0
    ensures SortedFor(mode, [a] + s)
  {
    var r := [a] + s;
    forall i, j | 0 <= i < j < |r| ensures Compare(mode, r[i], r[j]) <= 0 {
      assert r[j] == s[j - 1] && r[j] in s;
      if i > 0 { assert r[i] == s[i - 1]; }
    }
  }

  /** A lower bound of `s` and of `p` is a lower bound of any `t` holding exactly those. */
  lemma BoundCarries(mode: GameMode, a: Player, s: seq<Player>, p: Player, t: seq<Player>)
    requires multiset(t) == multiset(s) + multiset{p}
    requires Compare(mode, a, p) <= 0
    requires forall x :: x in s ==> Compare(mode, a, x) <= 0
    ensures forall x :: x in t ==> Compare(mode, a, x) <= 0
  {
    forall x | x in t ensures Compare(mode, a, x) <= 0 {
      assert x in multiset(t);
      if x != p { assert x in multiset(s); }
    }
  }

  /** Inserts `p` into a sorted list: the result is sorted and holds one more `p`. */
  function Insert(mode: GameMode, p: Player, s: seq<Player>): (r: seq<Player>)
    requires SortedFor(mode, s)
    ensures SortedFor(mode, r)
    ensures multiset(r) == multiset(s) + multiset{p}
  {
    if s == [] then [p]
    else if Compare(mode, p, s[0]) <= 0 then
      HeadFirst(mode, s);
      SortedCons(mode, p, s);
      [p] + s
    else
      var rest := Insert(mode, p, s[1..]);
      assert s == [s[0]] + s[1..];
      HeadFirst(mode, s);
      BoundCarries(mode, s[0], s[1..], p, rest);
      SortedCons(mode, s[0], rest);
      [s[0]] + rest
  }

  /**
   * `players.slice().sort(comparator)`: a sorted permutation of the players.
   * The host sort's tie order is not modelled; this one is an insertion sort.
   */
  function SortedView(mode: GameMode, ps: seq<Player>): (r: seq<Player>)
    ensures SortedFor(mode, r)
    ensures multiset(r) == multiset(ps)
    ensures |r| == |ps|
  {
    if ps == [] then []
    else
      assert ps == [ps[0]] + ps[1..];
      Insert(mode, ps[0], SortedView(mode, ps[1..]))
  }

  /** Highest-wins shows totals non-increasing; the other two modes non-decreasing. */
  lemma SortedViewOrder(mode: GameMode, ps: seq<Player>)
    ensures var r := SortedView(mode, ps);
      mode == HighestWins ==> forall i, j :: 0 <= i < j < |r| ==> r[i].totalScore >= r[j].totalScore
    ensures var r := SortedView(mode, ps);
      mode != HighestWins ==> forall i, j :: 0 <= i < j < |r| ==> r[i].totalScore <= r[j].totalScore
  {
  }

  /**
   * The crown test at sorted position `index`: only the first card of a
   * non-empty list can be crowned, and in highest-wins only with a positive
   * total; in the other modes only when some total is non-zero.
   */
  function ShowsCrown(mode: GameMode, ps: seq<Player>, sorted: seq<Player>, index: nat): (crown: bool)
    requires index < |sorted|
    ensures crown ==> index == 0 && |ps| > 0
    ensures crown && mode == HighestWins ==> sorted[index].totalScore > 0
    ensures crown && mode != HighestWins ==> exists p :: p in ps && p.totalScore != 0
  {
    && index == 0
    && |ps| > 0
    && (if mode == HighestWins then sorted[index].totalScore > 0
        else exists p :: p in ps && p.totalScore != 0)
  }

  datatype ScoreCard = ScoreCard(player: Player, crown: bool)

  /** The score cards in display order, each with its crown flag. */
  function ScoreCards(mode: GameMode, ps: seq<Player>): (cards: seq<ScoreCard>)
    ensures |cards| == |ps|
    ensures forall i :: 0 <= i < |cards| ==> cards[i].player == SortedView(mode, ps)[i]
    ensures forall i :: 0 < i < |cards| ==> !cards[i].crown
  {
    var sorted := SortedView(mode, ps);
    seq(|sorted|, i requires 0 <= i < |sorted| => ScoreCard(sorted[i], ShowsCrown(mode, ps, sorted, i)))
  }

  /**
   * The first card carries the crown exactly when: in highest-wins, some
   * player has a positive total; in the other modes, some total is non-zero.
   */
  lemma CrownRule(mode: GameMode, ps: seq<Player>)
    ensures var cards := ScoreCards(mode, ps);
      mode == HighestWins ==> (|cards| > 0 && cards[0].crown <==> exists p :: p in ps && p.totalScore > 0)
    ensures var cards := ScoreCards(mode, ps);
      mode != HighestWins ==> (|cards| > 0 && cards[0].crown <==> exists p :: p in ps && p.totalScore != 0)
  {
    var sorted := SortedView(mode, ps);
    if mode == HighestWins && |ps| > 0 {
      assert sorted[0] in multiset(ps);
      forall p | p in ps ensures p.totalScore <= sorted[0].totalScore {
        assert p in multiset(sorted);
        var j :| 0 <= j < |sorted| && sorted[j] == p;
        if j > 0 { assert Compare(mode, sorted[0], sorted[j]) <= 0; }
      }
    }
  }

  /** The screen: one registry and one game state, driven together by the handlers. */
  class Scoreboard {
    const players: PlayerManager
    const game: GameState

    ghost predicate Valid()
      reads this, players, game
    {
      players.Valid() && game.Valid()
    }

    /**
     * Driven through the buttons, a unique-rounds game never passes round 8,
     * the first round past the table, where the card reads "Game Over".
     */
    ghost predicate WithinTable()
      reads this, game
    {
      game.gameMode == UniqueRounds ==> game.round <= 8
    }

    constructor ()
      ensures Valid() && fresh(players) && fresh(game)
      ensures players.players == [] && players.newPlayerName == "" && players.nextId == 1
      ensures game.gameMode == HighestWins && game.round == 1
      ensures WithinTable()
    {
      players := new PlayerManager();
      game := new GameState();
    }

    /** Settles every entry, then moves to the next round. */
    method HandleApplyRoundScores()
      requires Valid()
      modifies players, game
      ensures Valid()
      ensures players.players == AppliedRound(old(players.players))
      ensures players.newPlayerName == old(players.newPlayerName) && players.nextId == old(players.nextId)
      ensures players.Issued == old(players.Issued)
      ensures game.round == old(game.round) + 1 && game.gameMode == old(game.gameMode)
    {
      players.ApplyRoundScores();
      game.NextRound();
    }

    /**
     * The "Apply round scores" button. It is shown only while there are
     * players and is disabled once the game has ended; otherwise it does
     * what the apply handler does, so the round follows `RoundAfterPress`.
     */
    method PressApplyRoundScores()
      requires Valid()
      modifies players, game
      ensures Valid()
      ensures old(WithinTable()) ==> WithinTable()
      ensures |old(players.players)| > 0 ==> game.round == RoundAfterPress(old(game.round), old(game.gameMode))
      ensures old(game.Ended()) || |old(players.players)| == 0 ==> unchanged(players, game)
      ensures !old(game.Ended()) && |old(players.players)| > 0 ==>
        && players.players == AppliedRound(old(players.players))
        && players.newPlayerName == old(players.newPlayerName) && players.nextId == old(players.nextId)
        && players.Issued == old(players.Issued)
        && game.round == old(game.round) + 1 && game.gameMode == old(game.gameMode)
    {
      if |players.players| > 0 && !game.Ended() {
        HandleApplyRoundScores();
      }
    }

    /** The "Reset game" button, shown only while there are players. */
    method PressResetGame()
      requires Valid()
      modifies players, game
      ensures Valid()
      ensures |old(players.players)| == 0 ==> unchanged(players, game)
      ensures |old(players.players)| > 0 ==>
        && players.players == ResetScores(old(players.players))
        && players.newPlayerName == old(players.newPlayerName) && players.nextId == old(players.nextId)
        && players.Issued == old(players.Issued)
        && game.round == 1 && game.gameMode == old(game.gameMode)
        && WithinTable()
    {
      if |players.players| > 0 {
        HandleResetAll();
      }
    }

    /** "Reset game": zero totals, clear entries, back to round 1, same mode. */
    method HandleResetAll()
      requires Valid()
      modifies players, game
      ensures Valid()
      ensures players.players == ResetScores(old(players.players))
      ensures players.newPlayerName == old(players.newPlayerName) && players.nextId == old(players.nextId)
      ensures players.Issued == old(players.Issued)
      ensures game.round == 1 && game.gameMode == old(game.gameMode)
      ensures WithinTable()
    {
      players.ResetPlayerScores();
      game.ResetGame();
    }

    /** Choosing a mode starts a fresh game under it, with all totals zeroed. */
    method HandleModeChange(newMode: GameMode)
      requires Valid()
      modifies players, game
      ensures Valid()
      ensures players.players == ResetScores(old(players.players))
      ensures players.newPlayerName == old(players.newPlayerName) && players.nextId == old(players.nextId)
      ensures players.Issued == old(players.Issued)
      ensures game.round == 1 && game.gameMode == newMode
      ensures WithinTable()
    {
      game.ChangeGameMode(newMode);
      players.ResetPlayerScores();
    }

    /**
     * What the score-card area shows. It is a function of the state, so
     * rendering leaves the stored list and its insertion order alone.
     */
    function Cards(): (cards: seq<ScoreCard>)
      reads this, players, game
      ensures |cards| == |players.players|
      ensures forall i :: 0 <= i < |cards| ==> cards[i].player in players.players
    {
      var cards := ScoreCards(game.gameMode, players.players);
      assert forall i :: 0 <= i < |cards| ==> cards[i].player in multiset(players.players);
      cards
    }
  }
}
