/**
 * Jeu de Nim (game1.py). Twenty matches stand in a pyramid; players take
 * turns removing one to three of them, and whoever takes the red match
 * (index 0) ends the game.
 *
 * A click is given as what it hit (the button or a match); rendering,
 * the intro, the confetti and the match rectangles are not modelled.
 */
module Nim {

  const Rows: nat := 7
  const TotalMatches: nat := 20

  /** One entry of the `matches` list (its `rect` is rendering and left out). */
  datatype Match = Match(index: int, alive: bool)

  /** 1 + 2 + ... + r */
  function Tri(r: nat): nat
  {
    if r == 0 then 0 else Tri(r - 1) + r
  }

  function Min(a: int, b: int): int
  {
    if a <= b then a else b
  }

  /** The starting table: every match alive and at its own index. */
  function FullTable(): (ms: seq<Match>)
    ensures |ms| == TotalMatches
  {
    seq(TotalMatches, i => Match(i, true))
  }

  /**
   * The pyramid generator (module level and restart): row r offers r + 1
   * places, and generation stops once TotalMatches matches exist.
   */
  method GenerateMatches() returns (matches: seq<Match>)
    ensures |matches| == Min(TotalMatches, Tri(Rows))
    ensures matches == FullTable()
  {
    matches := [];
    var count := 0;
    for row := 0 to Rows
      invariant count == |matches| == Min(TotalMatches, Tri(row))
      invariant forall i :: 0 <= i < |matches| ==> matches[i] == Match(i, true)
    {
      for col := 0 to row + 1
        invariant count == |matches| == Min(TotalMatches, Tri(row) + col)
        invariant forall i :: 0 <= i < |matches| ==> matches[i] == Match(i, true)
      {
        if count >= TotalMatches {
          break;
        }
        matches := matches + [Match(count, true)];
        count := count + 1;
      }
    }
    assert Tri(Rows) == 28;
  }

  /** The matches at the positions in `taken` leave the table; nothing else changes. */
  function Take(matches: seq<Match>, taken: seq<int>): (r: seq<Match>)
    ensures |r| == |matches|
  {
    seq(|matches|, i requires 0 <= i < |matches| =>
      if i in taken then matches[i].(alive := false) else matches[i])
  }

  /** How many matches are still on the table. */
  function AliveCount(matches: seq<Match>): nat
  {
    if matches == [] then 0
    else AliveCount(matches[..|matches| - 1]) + (if matches[|matches| - 1].alive then 1 else 0)
  }

  lemma {:induction false} RemoveOne(matches: seq<Match>, i: nat)
    requires i < |matches| && matches[i].alive
    ensures AliveCount(matches[i := matches[i].(alive := false)]) == AliveCount(matches) - 1
    decreases |matches|
  {
    var after := matches[i := matches[i].(alive := false)];
    var n := |matches|;
    if i < n - 1 {
      assert after[..n - 1] == matches[..n - 1][i := matches[i].(alive := false)];
      RemoveOne(matches[..n - 1], i);
    } else {
      assert after[..n - 1] == matches[..n - 1];
    }
  }

  /** Taking distinct alive matches lowers the count by exactly how many were taken. */
  lemma {:induction false} TakeRemovesExactly(matches: seq<Match>, taken: seq<int>)
    requires forall i, j :: 0 <= i < j < |taken| ==> taken[i] != taken[j]
    requires forall k :: 0 <= k < |taken| ==> 0 <= taken[k] < |matches| && matches[taken[k]].alive
    ensures AliveCount(Take(matches, taken)) == AliveCount(matches) - |taken|
    decreases |taken|
  {
    if taken == [] {
      assert Take(matches, taken) == matches;
    } else {
      var init := taken[..|taken| - 1];
      var last := taken[|taken| - 1];
      TakeRemovesExactly(matches, init);
      var before := Take(matches, init);
      assert last !in init;
      assert before[last] == matches[last];
      assert Take(matches, taken) == before[last := before[last].(alive := false)];
      RemoveOne(before, last);
    }
  }

  /** The other player. */
  function Other(player: int): int
  {
    if player == 1 then 2 else 1
  }

  class NimGame {
    var matches: seq<Match>
    var selected: seq<int>
    var currentPlayer: int
    var gameOver: bool

    /**
     * Selections are distinct alive matches, at most three; the game is
     * over exactly when the red match is gone, and then nothing is selected.
     */
    ghost predicate Valid()
      reads this
    {
      && |matches| == TotalMatches
      && (forall i :: 0 <= i < |matches| ==> matches[i].index == i)
      && |selected| <= 3
      && (forall i, j :: 0 <= i < j < |selected| ==> selected[i] != selected[j])
      && (forall k :: 0 <= k < |selected| ==> 0 <= selected[k] < |matches| && matches[selected[k]].alive)
      && (currentPlayer == 1 || currentPlayer == 2)
      && (gameOver <==> !matches[0].alive)
      && (gameOver ==> selected == [])
    }

    /** The module-level set-up. */
    constructor ()
      ensures Valid()
      ensures matches == FullTable() && selected == [] && currentPlayer == 1 && !gameOver
    {
      var initial := GenerateMatches();
      matches := initial;
      selected := [];
      currentPlayer := 1;
      gameOver := false;
    }

    /**
     * `handle_done`: with one to three matches selected they all leave the
     * table; taking the red match ends the game with the taker as winner,
     * otherwise the turn passes. The selection is cleared in every case.
     */
    method HandleDone()
      requires Valid()
      modifies this`matches, this`selected, this`currentPlayer, this`gameOver
      ensures Valid() && selected == []
      ensures 1 <= |old(selected)| <= 3 ==>
        && matches == Take(old(matches), old(selected))
        && AliveCount(matches) == AliveCount(old(matches)) - |old(selected)|
        && (if matches[0].alive
            then !gameOver && currentPlayer == Other(old(currentPlayer))
            else gameOver && currentPlayer == old(currentPlayer))
      ensures !(1 <= |old(selected)| <= 3) ==>
        matches == old(matches) && currentPlayer == old(currentPlayer) && gameOver == old(gameOver)
    {
      if 1 <= |selected| <= 3 {
        var remaining := matches;
        var k := 0;
        while k < |selected|
          invariant 0 <= k <= |selected|
          invariant remaining == Take(matches, selected[..k])
        {
          var idx := selected[k];
          assert selected[..k + 1] == selected[..k] + [idx];
          remaining := remaining[idx := remaining[idx].(alive := false)];
          k := k + 1;
        }
        assert selected[..k] == selected;
        TakeRemovesExactly(matches, selected);
        matches := remaining;
        if !matches[0].alive {
          gameOver := true;
        } else {
          currentPlayer := if currentPlayer == 1 then 2 else 1;
        }
      }
      selected := [];
    }

    /**
     * A click on match `i`: it joins the selection when the game runs, the
     * match is alive, not yet selected, and fewer than three are selected.
     */
    method ClickMatch(i: int)
      requires Valid()
      modifies this`selected
      ensures Valid()
      ensures selected ==
        if !gameOver && 0 <= i < |matches| && matches[i].alive && i !in old(selected) && |old(selected)| < 3
        then old(selected) + [i]
        else old(selected)
    {
      if !gameOver && 0 <= i < |matches| && matches[i].alive && i !in selected && |selected| < 3 {
        selected := selected + [matches[i].index];
      }
    }

    /** The restart branch of the click handler: a fresh pyramid, player 1 to move. */
    method Restart()
      modifies this
      ensures Valid()
      ensures matches == FullTable() && selected == [] && currentPlayer == 1 && !gameOver
    {
      var initial := GenerateMatches();
      matches := initial;
      selected := [];
      currentPlayer := 1;
      gameOver := false;
    }

    /** A click on the button: it ends the move while the game runs and restarts it once over. */
    method ClickButton()
      requires Valid()
      modifies this
      ensures Valid() && selected == []
      ensures old(gameOver) ==> matches == FullTable() && currentPlayer == 1 && !gameOver
      ensures !old(gameOver) ==>
        matches == (if 1 <= |old(selected)| <= 3 then Take(old(matches), old(selected)) else old(matches))
      ensures !old(gameOver) && 1 <= |old(selected)| <= 3 ==>
        if matches[0].alive then currentPlayer == Other(old(currentPlayer)) else currentPlayer == old(currentPlayer)
      ensures !old(gameOver) && !(1 <= |old(selected)| <= 3) ==> currentPlayer == old(currentPlayer)
    {
      if gameOver {
        Restart();
      } else {
        HandleDone();
      }
    }
  }
}
