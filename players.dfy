/**
 * The player registry: an ordered list of players, the pending name typed into
 * the "add player" field, and a counter that allocates player ids.
 */
module Players {
  import opened Wrappers
  import opened Text

  /** One player: a stable id, a name, the running total and the raw text of this round's entry. */
  datatype Player = Player(id: nat, name: string, totalScore: int, roundScore: string) {

    /** The player after a round is applied: the entry is parsed, added if it is a number, and cleared. */
    function Applied(): (q: Player)
      ensures q.id == id && q.name == name && q.roundScore == ""
      ensures Trim(roundScore) == "" ==> q.totalScore == totalScore
      ensures Trim(roundScore) != "" && ParseScore(Trim(roundScore)).None? ==> q.totalScore == totalScore
      ensures ParseScore(Trim(roundScore)).Some? ==> q.totalScore == totalScore + ParseScore(Trim(roundScore)).value
    {
      var value := Trim(roundScore);
      var numericRoundScore := if value == "" then Some(0) else ParseScore(value);
      match numericRoundScore
      case None => this.(roundScore := "")
      case Some(n) => this.(totalScore := totalScore + n, roundScore := "")
    }
  }

  /** Ids strictly increase along the list, so in particular they are pairwise distinct. */
  predicate IdsIncreasing(ps: seq<Player>) {
    forall i, j :: 0 <= i < j < |ps| ==> ps[i].id < ps[j].id
  }

  /** The list keeps its length, order, ids and names; only scores may differ. */
  predicate SameRoster(ps: seq<Player>, qs: seq<Player>) {
    |ps| == |qs| && forall i :: 0 <= i < |ps| ==> qs[i].id == ps[i].id && qs[i].name == ps[i].name
  }

  /** The list after `updateRoundScore(id, value)`: that player's entry becomes `value`. */
  function WithRoundScore(ps: seq<Player>, id: nat, value: string): (qs: seq<Player>)
    ensures |qs| == |ps|
    ensures forall i :: 0 <= i < |ps| && ps[i].id == id ==> qs[i] == ps[i].(roundScore := value)
    ensures forall i :: 0 <= i < |ps| && ps[i].id != id ==> qs[i] == ps[i]
  {
    if ps == [] then []
    else [if ps[0].id == id then ps[0].(roundScore := value) else ps[0]] + WithRoundScore(ps[1..], id, value)
  }

  /** The list after `applyRoundScores`: every player settled, in place. */
  function AppliedRound(ps: seq<Player>): (qs: seq<Player>)
    ensures |qs| == |ps|
    ensures forall i :: 0 <= i < |ps| ==> qs[i] == ps[i].Applied()
  {
    if ps == [] then [] else [ps[0].Applied()] + AppliedRound(ps[1..])
  }

  /** The list after `resetPlayerScores`: every total 0, every entry empty, roster untouched. */
  function ResetScores(ps: seq<Player>): (qs: seq<Player>)
    ensures SameRoster(ps, qs)
    ensures forall i :: 0 <= i < |qs| ==> qs[i].totalScore == 0 && qs[i].roundScore == ""
  {
    if ps == [] then [] else [ps[0].(totalScore := 0, roundScore := "")] + ResetScores(ps[1..])
  }

  /** The list after `removePlayer(id)`: only players of `ps` remain, none with that id. */
  function WithoutPlayer(ps: seq<Player>, id: nat): (qs: seq<Player>)
    ensures |qs| <= |ps|
    ensures forall p :: p in qs ==> p in ps
    ensures forall i :: 0 <= i < |qs| ==> qs[i].id != id
  {
    if ps == [] then []
    else if ps[0].id == id then WithoutPlayer(ps[1..], id)
    else [ps[0]] + WithoutPlayer(ps[1..], id)
  }

  /** Entering a round score touches no id, name or total. */
  lemma WithRoundScoreKeepsRoster(ps: seq<Player>, id: nat, value: string)
    ensures SameRoster(ps, WithRoundScore(ps, id, value))
    ensures forall i :: 0 <= i < |ps| ==> WithRoundScore(ps, id, value)[i].totalScore == ps[i].totalScore
  {
  }

  /** An id that no player has leaves the list as it was. */
  lemma WithRoundScoreUnknownId(ps: seq<Player>, id: nat, value: string)
    requires forall i :: 0 <= i < |ps| ==> ps[i].id != id
    ensures WithRoundScore(ps, id, value) == ps
  {
  }

  /** Applying a round keeps the roster and clears every entry. */
  lemma AppliedRoundKeepsRoster(ps: seq<Player>)
    ensures SameRoster(ps, AppliedRound(ps))
    ensures forall i :: 0 <= i < |ps| ==> AppliedRound(ps)[i].roundScore == ""
  {
  }

  /** A second apply with nothing entered in between changes nothing. */
  lemma AppliedRoundIdempotent(ps: seq<Player>)
    ensures AppliedRound(AppliedRound(ps)) == AppliedRound(ps)
  {
    var qs := AppliedRound(ps);
    forall i | 0 <= i < |qs| ensures qs[i].Applied() == qs[i] {
      assert Trim(qs[i].roundScore) == "";
    }
  }

  /**
   * An entry that is the decimal form of `n`, with any whitespace around it,
   * adds exactly `n` to the player's total.
   */
  lemma AppliedDecimalEntry(p: Player, pre: string, n: int, post: string)
    requires AllSpace(pre) && AllSpace(post)
    ensures p.(roundScore := pre + IntToDecimal(n) + post).Applied().totalScore == p.totalScore + n
  {
    TrimPadded(pre, IntToDecimal(n), post);
  }

  /** Resetting twice is resetting once. */
  lemma ResetScoresIdempotent(ps: seq<Player>)
    ensures ResetScores(ResetScores(ps)) == ResetScores(ps)
  {
  }

  /** Every player with another id survives a removal. */
  lemma {:induction false} WithoutPlayerKeepsOthers(ps: seq<Player>, id: nat, p: Player)
    requires p in ps && p.id != id
    ensures p in WithoutPlayer(ps, id)
  {
    if ps[0] != p {
      WithoutPlayerKeepsOthers(ps[1..], id, p);
    }
  }

  /** Removing keeps the remaining players in their original relative order. */
  lemma {:induction false} WithoutPlayerKeepsOrder(ps: seq<Player>, id: nat)
    requires IdsIncreasing(ps)
    ensures IdsIncreasing(WithoutPlayer(ps, id))
  {
    if ps != [] {
      WithoutPlayerKeepsOrder(ps[1..], id);
      var rest := WithoutPlayer(ps[1..], id);
      if ps[0].id != id {
        forall j | 0 <= j < |rest| ensures ps[0].id < rest[j].id {
          assert rest[j] in ps[1..];
        }
      }
    }
  }

  /** Removing the id of a player whose id nobody else has drops exactly that player. */
  lemma {:induction false} WithoutPlayerSplit(pre: seq<Player>, p: Player, post: seq<Player>)
    requires forall i :: 0 <= i < |pre| ==> pre[i].id != p.id
    requires forall i :: 0 <= i < |post| ==> post[i].id != p.id
    ensures WithoutPlayer(pre + [p] + post, p.id) == pre + post
  {
    var s := pre + [p] + post;
    if pre == [] {
      assert s[1..] == post;
      WithoutPlayerAbsent(post, p.id);
    } else {
      assert s[0] == pre[0];
      assert s[1..] == pre[1..] + [p] + post;
      WithoutPlayerSplit(pre[1..], p, post);
      assert pre + post == [pre[0]] + (pre[1..] + post);
    }
  }

  /** With increasing ids, no player before or after position `k` has the id at `k`. */
  lemma IdHeldOnce(ps: seq<Player>, k: nat, pre: seq<Player>, post: seq<Player>)
    requires IdsIncreasing(ps) && k < |ps|
    requires pre == ps[..k] && post == ps[k + 1..]
    ensures forall i :: 0 <= i < |pre| ==> pre[i].id != ps[k].id
    ensures forall i :: 0 <= i < |post| ==> post[i].id != ps[k].id
  {
    forall i | 0 <= i < |pre| ensures pre[i].id != ps[k].id {
      assert pre[i] == ps[i];
    }
    forall i | 0 <= i < |post| ensures post[i].id != ps[k].id {
      assert post[i] == ps[k + 1 + i];
    }
  }

  lemma SplitAround(ps: seq<Player>, k: nat)
    requires k < |ps|
    ensures ps == ps[..k] + [ps[k]] + ps[k + 1..]
  {
  }

  /** With increasing ids, removing a present id drops exactly that one position. */
  lemma WithoutPlayerAt(ps: seq<Player>, k: nat)
    requires IdsIncreasing(ps) && k < |ps|
    ensures WithoutPlayer(ps, ps[k].id) == ps[..k] + ps[k + 1..]
  {
    var pre, post := ps[..k], ps[k + 1..];
    IdHeldOnce(ps, k, pre, post);
    WithoutPlayerSplit(pre, ps[k], post);
    SplitAround(ps, k);
  }

  /** Removing an id that no player has leaves the list as it was. */
  lemma {:induction false} WithoutPlayerAbsent(ps: seq<Player>, id: nat)
    requires forall i :: 0 <= i < |ps| ==> ps[i].id != id
    ensures WithoutPlayer(ps, id) == ps
  {
    if ps != [] {
      WithoutPlayerAbsent(ps[1..], id);
    }
  }

  /**
   * The registry invariant over plain values: the counter starts at 1, the
   * issued ids are exactly those below it, and the listed ids increase and
   * were all issued.
   */
  ghost predicate RegistryInvariant(ps: seq<Player>, nextId: nat, issued: set<nat>) {
    && 1 <= nextId
    && (forall i :: i in issued <==> 1 <= i < nextId)
    && IdsIncreasing(ps)
    && (forall k :: 0 <= k < |ps| ==> ps[k].id in issued)
  }

  /** Appending a player under the counter's id, then bumping the counter, keeps the invariant. */
  lemma AddKeepsInvariant(ps: seq<Player>, nextId: nat, issued: set<nat>, name: string)
    requires RegistryInvariant(ps, nextId, issued)
    ensures nextId !in issued
    ensures RegistryInvariant(ps + [Player(nextId, name, 0, "")], nextId + 1, issued + {nextId})
  {
    var qs := ps + [Player(nextId, name, 0, "")];
    assert forall k :: 0 <= k < |ps| ==> ps[k].id < nextId;
    forall i, j | 0 <= i < j < |qs| ensures qs[i].id < qs[j].id {
      if j < |ps| {
        assert qs[i] == ps[i] && qs[j] == ps[j];
      } else {
        assert qs[i] == ps[i];
      }
    }
    forall k | 0 <= k < |qs| ensures qs[k].id in issued + {nextId} {
      if k < |ps| { assert qs[k] == ps[k]; }
    }
  }

  /**
   * The registry. `Issued` is the set of every id handed out so far (ghost
   * bookkeeping, not in the source); `Valid` ties it to the counter.
   */
  class PlayerManager {
    var players: seq<Player>
    var newPlayerName: string
    var nextId: nat
    ghost var Issued: set<nat>

    ghost predicate Valid()
      reads this
    {
      RegistryInvariant(players, nextId, Issued)
    }

    constructor ()
      ensures Valid()
      ensures players == [] && newPlayerName == "" && nextId == 1 && Issued == {}
    {
      players := [];
      newPlayerName := "";
      nextId := 1;
      Issued := {};
    }

    /** The text field's setter: a plain assignment. */
    method SetNewPlayerName(name: string)
      requires Valid()
      modifies this`newPlayerName
      ensures Valid() && newPlayerName == name
    {
      newPlayerName := name;
    }

    /**
     * Adds a player named by the trimmed pending name. An all-whitespace name
     * changes nothing; otherwise exactly one player is appended, under an id
     * that was never issued before, and the pending name is cleared.
     */
    method AddPlayer()
      requires Valid()
      modifies this
      ensures Valid()
      ensures Trim(old(newPlayerName)) == "" ==>
        players == old(players) && newPlayerName == old(newPlayerName) && nextId == old(nextId) && Issued == old(Issued)
      ensures Trim(old(newPlayerName)) != "" ==>
        && players == old(players) + [Player(old(nextId), Trim(old(newPlayerName)), 0, "")]
        && nextId == old(nextId) + 1
        && newPlayerName == ""
        && old(nextId) !in old(Issued)
        && Issued == old(Issued) + {old(nextId)}
    {
      var trimmedName := Trim(newPlayerName);
      if trimmedName != [] {
        AddKeepsInvariant(players, nextId, Issued, trimmedName);
        var newPlayer := Player(nextId, trimmedName, 0, "");
        players, nextId, newPlayerName, Issued := players + [newPlayer], nextId + 1, "", Issued + {nextId};
        assert RegistryInvariant(players, nextId, Issued);
      }
    }

    method UpdateRoundScore(id: nat, value: string)
      requires Valid()
      modifies this`players
      ensures Valid()
      ensures players == WithRoundScore(old(players), id, value)
    {
      players := WithRoundScore(players, id, value);
    }

    method ApplyRoundScores()
      requires Valid()
      modifies this`players
      ensures Valid()
      ensures players == AppliedRound(old(players))
    {
      players := AppliedRound(players);
    }

    method ResetPlayerScores()
      requires Valid()
      modifies this`players
      ensures Valid()
      ensures players == ResetScores(old(players))
    {
      players := ResetScores(players);
    }

    /** Removes the player with that id; the counter is left alone, so the id is never handed out again. */
    method RemovePlayer(id: nat)
      requires Valid()
      modifies this`players
      ensures Valid()
      ensures players == WithoutPlayer(old(players), id)
    {
      WithoutPlayerKeepsOrder(players, id);
      var remaining := WithoutPlayer(players, id);
      forall k | 0 <= k < |remaining| ensures remaining[k].id in Issued {
        assert remaining[k] in players;
      }
      players := remaining;
    }
  }
}

/** Worked examples of settling a round entry. */
module PlayersExample {
  import opened Text
  import opened Players

  lemma DecimalTen()
    ensures IntToDecimal(10) == "10"
  {
    assert NatToDecimal(10) == "10";
  }

  /** A numeric entry is added to the total. */
  lemma AppliedNumberExample(p: Player)
    requires p.roundScore == "10"
    ensures p.Applied().totalScore == p.totalScore + 10
  {
    DecimalTen();
    assert "" + IntToDecimal(10) + "" == "10";
    AppliedDecimalEntry(p, "", 10, "");
  }

  /** A non-numeric entry is discarded and leaves the total. */
  lemma AppliedNotANumberExample(p: Player)
    requires p.roundScore == "abc"
    ensures p.Applied().totalScore == p.totalScore
  {
    TrimPadded("", "abc", "");
    assert "" + "abc" + "" == "abc";
    assert !IsNumeral("abc") by { assert !IsDigit("abc"[0]); }
  }

  /** An entry with leading zeros counts as the number it spells: "007" adds 7. */
  lemma AppliedLeadingZerosExample(p: Player)
    requires p.roundScore == "007"
    ensures p.Applied().totalScore == p.totalScore + 7
  {
    assert NatToDecimal(7) == "7";
    LeadingZerosNumeral("00", 7);
    assert "00" + "7" == "007";
    TrimPadded("", "007", "");
    assert "" + "007" + "" == "007";
  }

  /**
   * One round over three players, entering "10", "abc" and nothing: the first
   * total grows by 10, the other two stay, and every entry is cleared.
   */
  lemma AppliedRoundExample()
    ensures AppliedRound([Player(1, "Ann", 0, "10"), Player(2, "Bo", 5, "abc"), Player(3, "Cy", 2, "")])
      == [Player(1, "Ann", 10, ""), Player(2, "Bo", 5, ""), Player(3, "Cy", 2, "")]
  {
    var ps := [Player(1, "Ann", 0, "10"), Player(2, "Bo", 5, "abc"), Player(3, "Cy", 2, "")];
    AppliedNumberExample(ps[0]);
    AppliedNotANumberExample(ps[1]);
    assert ps[2].Applied() == Player(3, "Cy", 2, "");
  }
}
