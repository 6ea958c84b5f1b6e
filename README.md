# Scoreboard model

A Dafny model of the logic of a small scoreboard web app: a player registry,
a round/mode state machine, and the screen that drives both and shows the
players as sorted score cards, with a crown on the leader.

- `wrappers.dfy` — `Option`.
- `text.dfy` (module `Text`) — the JavaScript built-ins the app relies on, as
  string functions: `Trim` (`String.prototype.trim`), `ParseScore`
  (`Number(string)` on decimal integer numerals only; `None` stands for NaN) and `IntToDecimal` (how a
  template literal prints an integer).
- `players.dfy` (module `Players`, from `src/hooks/usePlayerManager.ts`) — the
  `Player` record and the pure list transformations behind each operation
  (`WithRoundScore`, `AppliedRound`, `ResetScores`, `WithoutPlayer`), with
  lemmas about them. The class `PlayerManager` holds the mutable state
  (`players`, `newPlayerName`, `nextId`). Its methods replace the list the way
  the hook's functional updates do. `Valid()` is the invariant kept by every
  method: ids strictly increase in list order, and every id is below `nextId`.
  The ghost set `Issued` records every id ever handed out, so the contract of
  `AddPlayer` can say that a new id was never issued before, including ids
  of players since removed. The module `PlayersExample` works the entries
  "10", "abc" and "007", and one three-player round, through by hand.
- `game.dfy` (module `Game`, from `src/hooks/useGameState.ts`) — `GameMode`,
  the round-code table, `IsGameEnded`, `RoundText` and the lemmas that pin
  them down. `RoundAfterPresses` follows the round through repeated presses
  of the apply button. The class `GameState` holds `gameMode` and `round`.
  Its invariant `round >= 1` holds in every reachable state.
- `app.dfy` (module `App`, from `src/App.tsx`) — the comparator, the sorted
  copy (`SortedView`), the crown test, the score cards, and the class
  `Scoreboard`, whose handlers call both containers in the order the
  component does. The two buttons are shown only while there are players, and
  the apply button is disabled once the game has ended; `PressResetGame` and
  `PressApplyRoundScores` model those gates.

The app's unique-rounds mode ("Joe" in the mode selector) is sorted in
ascending order of total, like lowest-wins: the code compares
`a.totalScore - b.totalScore` for every mode other than highest-wins
(src/App.tsx:148-151). The model does the same.

## Model

| member | source | states |
|---|---|---|
| Text.Trim | src/hooks/usePlayerManager.ts:18 | the result has no whitespace at either end, and it is empty exactly when the input is all whitespace |
| Text.TrimSplit | src/hooks/usePlayerManager.ts:18 | the trimmed string is a contiguous slice of the input, and only whitespace lies before and after it |
| Text.TrimPadded | src/hooks/usePlayerManager.ts:45 | trimming whitespace-padded text gives back exactly the unpadded core |
| Text.TrimIdempotent | src/hooks/usePlayerManager.ts:45 | trimming twice is the same as trimming once |
| Text.ParseScore | src/hooks/usePlayerManager.ts:46-48 | a number is read exactly when the text is an optional sign followed by at least one digit, and its value is that of the digits, leading zeros included, negated after a minus sign; the empty string reads as no number |
| Text.LeadingZerosNumeral | src/hooks/usePlayerManager.ts:46 | zeros written before a number, with or without a sign in front, do not change the number read |
| Text.NatToDecimal | src/hooks/useGameState.ts:40 | the decimal digits, with no leading zero, whose value is the number |
| Text.IntToDecimal | src/hooks/useGameState.ts:43 | a non-negative integer prints as its decimal digits, a negative one as "-" and the digits of its magnitude; the printed form is read back as that same integer and has no surrounding whitespace and no "?" |
| Players.Player.Applied | src/hooks/usePlayerManager.ts:44-57 | id and name are kept and the entry is cleared; an empty or non-numeric entry leaves the total, a number n adds n |
| Players.WithRoundScore | src/hooks/usePlayerManager.ts:34-40 | the same length; the player with that id gets the value verbatim as entry, every other player is unchanged |
| Players.AppliedRound | src/hooks/usePlayerManager.ts:42-59 | the same length, and each position holds that player after the round is applied |
| Players.ResetScores | src/hooks/usePlayerManager.ts:61-69 | the same ids and names in the same order, every total 0 and every entry empty |
| Players.WithoutPlayer | src/hooks/usePlayerManager.ts:71-73 | only players from the list remain, and none has the removed id |
| Players.WithRoundScoreKeepsRoster | src/hooks/usePlayerManager.ts:34-40 | entering a round score changes no id, name or total |
| Players.WithRoundScoreUnknownId | src/hooks/usePlayerManager.ts:34-40 | an id no player has leaves the list unchanged |
| Players.AppliedRoundKeepsRoster | src/hooks/usePlayerManager.ts:42-59 | applying a round keeps length, order, ids and names, and every entry ends up empty |
| Players.AppliedRoundIdempotent | src/hooks/usePlayerManager.ts:42-59 | a second apply with nothing entered in between changes nothing |
| Players.AppliedDecimalEntry | src/hooks/usePlayerManager.ts:45-55 | an entry holding the decimal form of n, with any whitespace around it, adds exactly n to the total |
| Players.ResetScoresIdempotent | src/hooks/usePlayerManager.ts:61-69 | resetting twice is the same as resetting once |
| Players.WithoutPlayerKeepsOthers | src/hooks/usePlayerManager.ts:72 | every player with a different id survives the removal |
| Players.WithoutPlayerKeepsOrder | src/hooks/usePlayerManager.ts:72 | removal keeps ids strictly increasing, so the survivors keep their relative order |
| Players.WithoutPlayerSplit | src/hooks/usePlayerManager.ts:72 | removing the id of a player whose id no other player has drops exactly that player and keeps the rest in order |
| Players.WithoutPlayerAt | src/hooks/usePlayerManager.ts:72 | with increasing ids, removing the id at position k drops exactly position k and keeps the rest in order |
| Players.WithoutPlayerAbsent | src/hooks/usePlayerManager.ts:72 | removing an id no player has leaves the list unchanged |
| Players.PlayerManager.constructor | src/hooks/usePlayerManager.ts:11-13 | no players, an empty pending name, and the counter at 1 |
| Players.PlayerManager.SetNewPlayerName | src/hooks/usePlayerManager.ts:12 | the pending name becomes the given text |
| Players.PlayerManager.AddPlayer | src/hooks/usePlayerManager.ts:15-32 | an all-whitespace name changes nothing; otherwise exactly one player is appended, with the trimmed name, total 0, an empty entry and the old counter as a never-issued id; the counter goes up by 1 and the pending name is cleared |
| Players.PlayerManager.UpdateRoundScore | src/hooks/usePlayerManager.ts:34-40 | the list becomes `WithRoundScore` of the old list, and the id invariant still holds |
| Players.PlayerManager.ApplyRoundScores | src/hooks/usePlayerManager.ts:42-59 | the list becomes `AppliedRound` of the old list, and the id invariant still holds |
| Players.PlayerManager.ResetPlayerScores | src/hooks/usePlayerManager.ts:61-69 | the list becomes `ResetScores` of the old list, and the id invariant still holds |
| Players.PlayerManager.RemovePlayer | src/hooks/usePlayerManager.ts:71-73 | the list becomes `WithoutPlayer` of the old list; the counter and the issued ids are untouched, so the removed id is never handed out again |
| PlayersExample.AppliedNumberExample | src/hooks/usePlayerManager.ts:52-56 | an entry "10" adds 10 to the total |
| PlayersExample.AppliedNotANumberExample | src/hooks/usePlayerManager.ts:48-50 | an entry "abc" leaves the total unchanged |
| PlayersExample.AppliedLeadingZerosExample | src/hooks/usePlayerManager.ts:45-56 | an entry "007" adds 7 to the total |
| PlayersExample.AppliedRoundExample | src/hooks/usePlayerManager.ts:42-59 | a round with entries "10", "abc" and nothing on totals 0, 5 and 2 gives totals 10, 5 and 2, every entry cleared |
| Game.UniqueRoundCode | src/hooks/useGameState.ts:5-10 | a round code exists exactly for rounds 1 to 7; index 0 and every other index give none |
| Game.RoundDisplayNumber | src/hooks/useGameState.ts:7-11 | in the counting modes the shown number reads back as the round; in unique-rounds mode it is "?" exactly where the table has no entry, and otherwise reads back as that entry |
| Game.IsGameEnded | src/hooks/useGameState.ts:13-15 | only a unique-rounds game ends, and from round 1 on it has ended exactly when the round has no table entry |
| Game.RoundText | src/hooks/useGameState.ts:34-44 | the text is "Game Over" exactly when the game has ended, and otherwise "Round: " followed by the shown number |
| Game.UniqueRoundText | src/hooks/useGameState.ts:39-40 | in unique-rounds mode, for rounds 1 to 7, the text is "Round: " followed by that round's table entry |
| Game.UniqueRoundTable | src/hooks/useGameState.ts:5 | rounds 1 to 7 read "Round: 33", "34", "44", "333", "334", "344", "444", and round 8 reads "Game Over" |
| Game.CountedRoundText | src/hooks/useGameState.ts:43 | in highest-wins and lowest-wins the text is "Round: " and the printed round: its digits for a round of 0 or more, "-" and the digits of its magnitude below 0; the printed part reads back as the round |
| Game.CountedRoundExample | src/hooks/useGameState.ts:43 | round 5 of a highest-wins game reads "Round: 5" |
| Game.NoPlaceholderWhenReachable | src/hooks/useGameState.ts:34-44 | with the round at least 1, as in every reachable state, the text never contains "?" |
| Game.RoundAfterPress | src/App.tsx:131 | one press of the apply button leaves the round exactly when the game has ended, and otherwise advances it by one |
| Game.UniqueRoundsStopAtEight | src/hooks/useGameState.ts:13-15 | in unique-rounds mode, from a round between 1 and 8, k presses reach round + k, but never beyond 8 |
| Game.SevenRoundsThenOver | src/hooks/useGameState.ts:5-15 | a unique-rounds game from round 1 is over after exactly seven presses; before that, the card shows the table entry of the current round |
| Game.CountingModesNeverEnd | src/hooks/useGameState.ts:13-15 | in the counting modes k presses advance the round by exactly k, and the game never ends |
| Game.GameState.constructor | src/hooks/useGameState.ts:18-19 | the game starts in highest-wins mode at round 1 |
| Game.GameState.NextRound | src/hooks/useGameState.ts:21-23 | the round goes up by exactly 1 and the mode is untouched |
| Game.GameState.ResetGame | src/hooks/useGameState.ts:25-27 | the round becomes 1 and the mode is untouched |
| Game.GameState.ChangeGameMode | src/hooks/useGameState.ts:29-32 | the mode becomes the new one and the round becomes 1 |
| Game.GameState.Ended | src/hooks/useGameState.ts:53 | the ended flag is set exactly when the card reads "Game Over" |
| Game.GameState.DisplayText | src/hooks/useGameState.ts:54 | in every reachable state the card text has no "?" fallback |
| App.Compare | src/App.tsx:148-151 | a player may stay ahead of another exactly when their total is at least as good: higher or equal in highest-wins, lower or equal otherwise; the comparator is 0 exactly on equal totals |
| App.Insert | src/App.tsx:148 | inserting into a sorted list gives a sorted list holding one more copy of the player |
| App.SortedView | src/App.tsx:146-152 | the copy is sorted by the comparator and is a permutation of the players |
| App.SortedViewOrder | src/App.tsx:148-151 | highest-wins shows totals in non-increasing order; lowest-wins and unique-rounds in non-decreasing order |
| App.ShowsCrown | src/App.tsx:156-160 | only the first card of a non-empty list can be crowned; in highest-wins only with a positive total, otherwise only when some total is non-zero |
| App.ScoreCards | src/App.tsx:153-162 | one card per player, in sorted order, and no card after the first has a crown |
| App.CrownRule | src/App.tsx:156-160 | in highest-wins the first card is crowned exactly when some total is positive; in the other modes exactly when some total is non-zero |
| App.Scoreboard.constructor | src/App.tsx:6-24 | a fresh registry and game: no players, counter 1, highest-wins, round 1, within the round table |
| App.Scoreboard.HandleApplyRoundScores | src/App.tsx:26-29 | the player list becomes `AppliedRound` of the old list, then the round goes up by one; the mode, pending name and counter are unchanged |
| App.Scoreboard.PressApplyRoundScores | src/App.tsx:74-134 | with no players or once the game has ended the button does nothing; otherwise it does what the apply handler does; with players the round follows `RoundAfterPress`, and a unique-rounds game never passes round 8 |
| App.Scoreboard.PressResetGame | src/App.tsx:74-125 | with no players the button does nothing; otherwise it does what the reset handler does and brings the round back within the table |
| App.Scoreboard.HandleResetAll | src/App.tsx:31-34 | all totals zero, all entries cleared, round 1, and the mode is unchanged |
| App.Scoreboard.HandleModeChange | src/App.tsx:44-51 | the new mode, round 1, all totals zero and all entries cleared |
| App.Scoreboard.Cards | src/App.tsx:146-162 | one card per stored player, and each card shows one of them; the stored list is only read |

## Left out

- Text.ParseScore: reads only an optional sign followed by decimal digits. `Number` also reads exponent, decimal-point, hexadecimal, binary and octal forms, fractions and `Infinity`. Some of these are whole numbers: "1e3" is 1000, "2.0" is 2, "0x10" is 16, "0b11" is 3 and "0o17" is 15, and the numeric input field lets "1e3" and "2.0" through. The model reads all of them as not a number, so `Players.Player.Applied` leaves the total unchanged where the source adds 1000, 2, 16, 3, 15 or a fraction. Fractions and `Infinity` are floating point, which this model does not cover.
- Text.ParseScore: gives no number for the empty string, although `Number("")` is 0. The source tests for the empty entry before parsing (src/hooks/usePlayerManager.ts:46), so `Players.Player.Applied` behaves as the source does.
- Players.Player.Applied: totals, ids and the round counter are unbounded integers. JavaScript's double-precision rounding of very large values is not modelled.
- Text.Trim: whitespace is the fixed list of ECMAScript WhiteSpace and LineTerminator code points. The Unicode-version dependence of the space-separator category is not modelled.
- App.SortedView: the host sort's tie order (stability) is not modelled. Only sortedness under the comparator and the permutation property are stated.
- JSX rendering, the crown icon, the form, select and input elements, and `event.preventDefault()` are presentation only. The browser's sanitising of the numeric input field is also left out.
- React's scheduling and batching of state updates is left out. Each functional update is an immediate assignment to a class field.
- The raw `setGameMode` export (src/hooks/useGameState.ts:49) is left out, because the component never calls it.
- The source has no persistence, no remove-all operation and no rank numbers with tie handling, so none is modelled.
- `Issued` in `PlayerManager` is ghost bookkeeping, used only to state that ids are never reused. It has no counterpart in the source.
