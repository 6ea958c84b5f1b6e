/**
 * Round and mode bookkeeping: the scoring rule in force, the round counter, the
 * end-of-game test and the text shown in the round card.
 */
module Game {
  import opened Wrappers
  import opened Text

  datatype GameMode = HighestWins | LowestWins | UniqueRounds

  /** The names of the rounds of a unique-rounds game; index 0 is unused. */
  const UniqueRoundCodes: seq<Option<nat>> :=
    [None, Some(33), Some(34), Some(44), Some(333), Some(334), Some(344), Some(444)]

  /** `UNIQUE_ROUND_CODES[round]`, with `None` for the empty slot and for any index outside the table. */
  function UniqueRoundCode(round: int): (c: Option<nat>)
    ensures c.Some? <==> 1 <= round <= 7
  {
    if 0 <= round < |UniqueRoundCodes| then UniqueRoundCodes[round] else None
  }

  /**
   * What stands after "Round: ". In the counting modes it is the round, which
   * reads back as that number; in unique-rounds mode it is the round's table
   * entry, and "?" exactly where the table has none.
   */
  function RoundDisplayNumber(round: int, mode: GameMode): (r: string)
    ensures mode != UniqueRounds ==> ParseScore(r) == Some(round)
    ensures mode == UniqueRounds ==> (r == "?" <==> UniqueRoundCode(round).None?)
    ensures mode == UniqueRounds && UniqueRoundCode(round).Some? ==>
      ParseScore(r) == Some(UniqueRoundCode(round).value as int)
  {
    if mode != UniqueRounds then IntToDecimal(round)
    else match UniqueRoundCode(round)
      case Some(code) =>
        var d := NatToDecimal(code);
        assert IsDigit(d[0]);
        assert ParseScore(IntToDecimal(code)) == Some(code as int);
        d
      case None => "?"
  }

  /**
   * The game is over once the unique-rounds table is used up: from round 1
   * on, it has ended exactly when the mode is unique-rounds and the round has
   * no table entry. The two counting modes never end.
   */
  function IsGameEnded(round: int, mode: GameMode): (ended: bool)
    ensures ended ==> mode == UniqueRounds
    ensures round >= 1 ==> (ended <==> mode == UniqueRounds && UniqueRoundCode(round).None?)
  {
    mode == UniqueRounds && round > 7
  }

  /**
   * The round card's text: "Game Over" exactly when the game has ended, and
   * otherwise "Round: " followed by the display number.
   */
  function RoundText(round: int, mode: GameMode): (text: string)
    ensures text == "Game Over" <==> IsGameEnded(round, mode)
    ensures !IsGameEnded(round, mode) ==> text == "Round: " + RoundDisplayNumber(round, mode)
  {
    if IsGameEnded(round, mode) then "Game Over"
    else
      var text := if mode == UniqueRounds then "Round: " + RoundDisplayNumber(round, mode)
        else "Round: " + IntToDecimal(round);
      assert text[0] == 'R';
      text
  }

  /** In a unique-rounds game that has not ended the card names the round by its table entry. */
  lemma UniqueRoundText(round: int)
    requires 1 <= round <= 7
    ensures RoundText(round, UniqueRounds) == "Round: " + NatToDecimal(UniqueRoundCodes[round].value)
  {
  }

  /** The seven round names, spelled out, and the end after round 7. */
  lemma UniqueRoundTable()
    ensures RoundText(1, UniqueRounds) == "Round: 33"
    ensures RoundText(2, UniqueRounds) == "Round: 34"
    ensures RoundText(3, UniqueRounds) == "Round: 44"
    ensures RoundText(4, UniqueRounds) == "Round: 333"
    ensures RoundText(5, UniqueRounds) == "Round: 334"
    ensures RoundText(6, UniqueRounds) == "Round: 344"
    ensures RoundText(7, UniqueRounds) == "Round: 444"
    ensures RoundText(8, UniqueRounds) == "Game Over"
  {
    Decimals();
    UniqueRoundText(1); UniqueRoundText(2); UniqueRoundText(3); UniqueRoundText(4);
    UniqueRoundText(5); UniqueRoundText(6); UniqueRoundText(7);
  }

  lemma Decimals()
    ensures NatToDecimal(33) == "33" && NatToDecimal(34) == "34" && NatToDecimal(44) == "44"
    ensures NatToDecimal(333) == "333" && NatToDecimal(334) == "334"
    ensures NatToDecimal(344) == "344" && NatToDecimal(444) == "444"
  {
  }

  /** In the two counting modes the card shows the round number, which reads back as that number. */
  lemma CountedRoundText(round: int, mode: GameMode)
    requires mode != UniqueRounds
    ensures RoundText(round, mode) == "Round: " + IntToDecimal(round)
    ensures round >= 0 ==> RoundText(round, mode) == "Round: " + NatToDecimal(round)
    ensures round < 0 ==> RoundText(round, mode) == "Round: -" + NatToDecimal(-round)
    ensures ParseScore(RoundText(round, mode)[7..]) == Some(round)
  {
    assert RoundText(round, mode)[7..] == IntToDecimal(round);
  }

  /** Round 5 of a highest-wins game. */
  lemma CountedRoundExample()
    ensures RoundText(5, HighestWins) == "Round: 5"
  {
    assert NatToDecimal(5) == "5";
  }

  /** With round at least 1 (every reachable state), the card never shows the "?" fallback. */
  lemma NoPlaceholderWhenReachable(round: int, mode: GameMode)
    requires round >= 1
    ensures '?' !in RoundText(round, mode)
  {
    var r := RoundText(round, mode);
    if mode == UniqueRounds && round <= 7 {
      var d := NatToDecimal(UniqueRoundCode(round).value);
      assert r == "Round: " + d;
      assert forall k :: 0 <= k < |d| ==> d[k] != '?';
    }
  }

  /**
   * The round after one press of "Apply round scores" with players present:
   * the button is disabled once the game has ended, so the round stays put
   * exactly then, and otherwise goes up by one.
   */
  function RoundAfterPress(round: int, mode: GameMode): (next: int)
    ensures next == round <==> IsGameEnded(round, mode)
    ensures next != round ==> next == round + 1
  {
    if IsGameEnded(round, mode) then round else round + 1
  }

  /** The round after `k` presses. */
  function RoundAfterPresses(round: int, mode: GameMode, k: nat): (r: int)
    decreases k
  {
    if k == 0 then round else RoundAfterPresses(RoundAfterPress(round, mode), mode, k - 1)
  }

  /** In unique-rounds mode, from any round up to 8, presses count up and stop at 8. */
  lemma {:induction false} UniqueRoundsStopAtEight(round: int, k: nat)
    requires 1 <= round <= 8
    ensures RoundAfterPresses(round, UniqueRounds, k) == if round + k <= 8 then round + k else 8
    decreases k
  {
    if k > 0 {
      UniqueRoundsStopAtEight(RoundAfterPress(round, UniqueRounds), k - 1);
    }
  }

  /**
   * A unique-rounds game started at round 1 shows the table entries of rounds
   * 1 to 7 for its first seven presses' worth of rounds, and is over after
   * exactly seven presses.
   */
  lemma SevenRoundsThenOver(k: nat)
    ensures IsGameEnded(RoundAfterPresses(1, UniqueRounds, k), UniqueRounds) <==> k >= 7
    ensures k < 7 ==>
      RoundText(RoundAfterPresses(1, UniqueRounds, k), UniqueRounds)
        == "Round: " + NatToDecimal(UniqueRoundCodes[k + 1].value)
    ensures k >= 7 ==> RoundText(RoundAfterPresses(1, UniqueRounds, k), UniqueRounds) == "Game Over"
  {
    UniqueRoundsStopAtEight(1, k);
    if k < 7 {
      UniqueRoundText(k + 1);
    }
  }

  /** The counting modes never end: each press moves to the next round. */
  lemma {:induction false} CountingModesNeverEnd(round: int, mode: GameMode, k: nat)
    requires mode != UniqueRounds
    ensures RoundAfterPresses(round, mode, k) == round + k
    ensures !IsGameEnded(RoundAfterPresses(round, mode, k), mode)
    decreases k
  {
    if k > 0 {
      CountingModesNeverEnd(round + 1, mode, k - 1);
    }
  }

  /** The round/mode container. */
  class GameState {
    var gameMode: GameMode
    var round: int

    ghost predicate Valid()
      reads this
    {
      round >= 1
    }

    constructor ()
      ensures Valid()
      ensures gameMode == HighestWins && round == 1
    {
      gameMode := HighestWins;
      round := 1;
    }

    method NextRound()
      requires Valid()
      modifies this`round
      ensures Valid()
      ensures round == old(round) + 1
    {
      round := round + 1;
    }

    method ResetGame()
      requires Valid()
      modifies this`round
      ensures Valid()
      ensures round == 1
    {
      round := 1;
    }

    /** A mode change always starts a fresh game. */
    method ChangeGameMode(newMode: GameMode)
      requires Valid()
      modifies this
      ensures Valid()
      ensures gameMode == newMode && round == 1
    {
      gameMode := newMode;
      ResetGame();
    }

    /** The `isGameEnded` flag: set exactly when the card reads "Game Over". */
    function Ended(): (ended: bool)
      reads this
      ensures ended <==> DisplayText() == "Game Over"
    {
      IsGameEnded(round, gameMode)
    }

    /** The `roundDisplayText` value; in every reachable state it has no "?" fallback. */
    function DisplayText(): (text: string)
      reads this
      ensures Valid() ==> '?' !in text
    {
      var text := RoundText(round, gameMode);
      assert round >= 1 ==> '?' !in text by {
        if round >= 1 { NoPlaceholderWhenReachable(round, gameMode); }
      }
      text
    }
  }
}
