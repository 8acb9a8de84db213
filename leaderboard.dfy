/** The general and hero leaderboards: per-category maps from player to a
    per-10-minute rate, the top-ten extraction that turns each map into a
    ranked list (sortDictsIntoArrays), and the rank lookup of one player
    (generalLeaderboardRanks). Go's maps are modelled as map values; their
    random iteration order by a nondeterministic choice of the next key. */
module Leaderboard {
  import opened Stats
  import opened Slices

  /** Categories, and so leaderboards, per board set. */
  const CategoryCount: nat := 10
  /** Names kept per leaderboard. */
  const BoardSize: nat := 10

  /** Some player in the map has a strictly positive value. */
  predicate HasPositive(m: map<string, real>) {
    exists k :: k in m && m[k] > 0.0
  }

  /** p is a strictly positive maximum of the map. */
  predicate Best(m: map<string, real>, p: string) {
    p in m && m[p] > 0.0 && forall k :: k in m ==> m[k] <= m[p]
  }

  /** One round of the selection: the scan over the map in whatever order
      the map yields its keys, keeping a player only when its value is
      strictly above the best so far, which starts at 0. The result is a
      positive maximum when there is one, and "" otherwise. */
  method ExtractMax(m: map<string, real>) returns (maxStatPlayer: string)
    ensures HasPositive(m) ==> Best(m, maxStatPlayer)
    ensures !HasPositive(m) ==> maxStatPlayer == ""
  {
    var maxStat := 0.0;
    maxStatPlayer := "";
    var keys := m.Keys;
    while keys != {}
      invariant keys <= m.Keys
      invariant maxStat >= 0.0
      invariant forall k :: k in m && k !in keys ==> m[k] <= maxStat
      invariant maxStat > 0.0 ==> maxStatPlayer in m && m[maxStatPlayer] == maxStat
      invariant maxStat == 0.0 ==> maxStatPlayer == ""
      decreases keys
    {
      var player :| player in keys;
      keys := keys - {player};
      var stat := m[player];
      if stat <= maxStat {
        continue;
      }
      maxStat := stat;
      maxStatPlayer := player;
    }
    if HasPositive(m) {
      var k :| k in m && m[k] > 0.0;
      assert m[k] <= maxStat;
    }
  }

  /** The promises of one ranked list built from the map orig, with rest
      what is left of the map afterwards:
      - at most ten names, none of them "", no name twice;
      - every listed name had a strictly positive value;
      - values along the list never increase;
      - every listed value is at least every value still in the map;
      - the map lost exactly the listed names, and "" too when the list
        came out short (a round without a winner deletes "");
      - when "" carried no positive value, a short list means no positive
        value is left. */
  predicate Ranked(orig: map<string, real>, board: seq<string>, rest: map<string, real>, rounds: nat) {
    |board| <= rounds &&
    (forall a :: 0 <= a < |board| ==> board[a] != "" && board[a] in orig && orig[board[a]] > 0.0) &&
    (forall a, b :: 0 <= a < b < |board| ==> board[a] != board[b]) &&
    (forall a, b :: 0 <= a < b < |board| ==> orig[board[b]] <= orig[board[a]]) &&
    (forall k :: k in rest ==> k in orig && rest[k] == orig[k]) &&
    (forall a, k :: 0 <= a < |board| && k in rest ==> rest[k] <= orig[board[a]]) &&
    rest.Keys == orig.Keys - Listed(board) - (if |board| < rounds then {""} else {}) &&
    ((!("" in orig) || orig[""] <= 0.0) && |board| < rounds ==> !HasPositive(rest))
  }

  /** Nothing is listed before the first round. */
  lemma RankedStart(orig: map<string, real>)
    ensures Ranked(orig, [], orig, 0)
  {
    assert Listed([]) == {};
  }

  /** The names of a board, as a set. */
  function Listed(board: seq<string>): set<string> {
    set a | 0 <= a < |board| :: board[a]
  }

  /** Appending a name adds exactly it to the listed set. */
  lemma {:induction false} ListedAppend(board: seq<string>, p: string)
    ensures Listed(board + [p]) == Listed(board) + {p}
  {
    var board' := board + [p];
    forall x | x in Listed(board') ensures x in Listed(board) + {p} {
      var a :| 0 <= a < |board'| && board'[a] == x;
      if a < |board| { assert board[a] == x; }
    }
    forall x | x in Listed(board) + {p} ensures x in Listed(board') {
      if x == p { assert board'[|board|] == p; }
      else { var a :| 0 <= a < |board| && board[a] == x; assert board'[a] == x; }
    }
  }

  /** A round with a winner keeps the promises: the winner is appended
      and deleted. */
  lemma {:induction false} RankedWinner(orig: map<string, real>, board: seq<string>, rest: map<string, real>, rounds: nat, p: string)
    requires Ranked(orig, board, rest, rounds)
    requires Best(rest, p) && p != ""
    ensures Ranked(orig, board + [p], rest - {p}, rounds + 1)
  {
    ListedAppend(board, p);
    assert p !in Listed(board);
    var board' := board + [p];
    assert forall a :: 0 <= a < |board| ==> board'[a] == board[a];
    assert |board| == rounds ==> "" in rest || "" !in orig;
  }

  /** A round without a listed winner keeps the promises: nothing is
      appended and "" is deleted. This happens when no positive value is
      left, or when "" itself holds the largest one. */
  lemma {:induction false} RankedNoWinner(orig: map<string, real>, board: seq<string>, rest: map<string, real>, rounds: nat)
    requires Ranked(orig, board, rest, rounds)
    requires HasPositive(rest) ==> Best(rest, "")
    ensures Ranked(orig, board, rest - {""}, rounds + 1)
  {
    if HasPositive(rest) {
      assert orig[""] > 0.0;
    }
  }

  /** One round keeps the promises. */
  lemma {:induction false} RankedStep(orig: map<string, real>, board: seq<string>, rest: map<string, real>, rounds: nat, p: string)
    requires Ranked(orig, board, rest, rounds)
    requires HasPositive(rest) ==> Best(rest, p)
    requires !HasPositive(rest) ==> p == ""
    ensures var board' := if p != "" then board + [p] else board;
      Ranked(orig, board', rest - {p}, rounds + 1)
  {
    if p != "" {
      RankedWinner(orig, board, rest, rounds, p);
    } else {
      RankedNoWinner(orig, board, rest, rounds);
    }
  }

  /** The ten rounds for one category: the board for that category and
      what remains of its map. */
  method SortCategory(dict: map<string, real>) returns (board: seq<string>, rest: map<string, real>)
    ensures Ranked(dict, board, rest, BoardSize)
  {
    board := [];
    rest := dict;
    RankedStart(dict);
    var j := 0;
    while j < BoardSize
      invariant 0 <= j <= BoardSize
      invariant Ranked(dict, board, rest, j)
    {
      var maxStatPlayer := ExtractMax(rest);
      RankedStep(dict, board, rest, j, maxStatPlayer);
      if maxStatPlayer != "" {
        board := board + [maxStatPlayer];
      }
      rest := rest - {maxStatPlayer};
      j := j + 1;
    }
  }

  /** sortDictsIntoArrays: one ranked list per category map, for the first
      ten maps, and the maps with the listed players deleted (Go's maps are
      changed in place; here they come back as values). */
  method SortDictsIntoArrays(dicts: seq<map<string, real>>)
    returns (boards: seq<seq<string>>, remaining: seq<map<string, real>>)
    requires |dicts| >= CategoryCount
    ensures |boards| == CategoryCount && |remaining| == |dicts|
    ensures forall i :: 0 <= i < CategoryCount ==> Ranked(dicts[i], boards[i], remaining[i], BoardSize)
    ensures forall i :: CategoryCount <= i < |dicts| ==> remaining[i] == dicts[i]
  {
    boards := [];
    remaining := dicts;
    var i := 0;
    while i < CategoryCount
      invariant 0 <= i <= CategoryCount
      invariant |boards| == i && |remaining| == |dicts|
      invariant forall c :: 0 <= c < i ==> Ranked(dicts[c], boards[c], remaining[c], BoardSize)
      invariant forall c :: i <= c < |dicts| ==> remaining[c] == dicts[c]
    {
      var board, rest := SortCategory(remaining[i]);
      boards := boards + [board];
      remaining := remaining[i := rest];
      i := i + 1;
    }
  }

  /** With no "" player, an unlisted positive value proves the list full
      and is at most every listed value: the list holds the top ten. */
  lemma {:induction false} UnlistedBelowBoard(orig: map<string, real>, board: seq<string>, rest: map<string, real>, k: string)
    requires Ranked(orig, board, rest, BoardSize)
    requires "" !in orig
    requires k in orig && orig[k] > 0.0 && k !in board
    ensures |board| == BoardSize
    ensures forall a :: 0 <= a < |board| ==> orig[k] <= orig[board[a]]
  {
    assert k !in Listed(board);
    assert k in rest;
  }

  /** generalLeaderboardRanks: for each leaderboard, the player's 1-based
      place on it, or 0 when it is not listed. */
  method GeneralLeaderboardRanks(leaderboards: seq<seq<string>>, player: string) returns (ranks: seq<int>)
    ensures |ranks| == |leaderboards|
    ensures forall i :: 0 <= i < |leaderboards| ==> ranks[i] == FindIndexInSlice(leaderboards[i], player) + 1
  {
    ranks := [];
    var i := 0;
    while i < |leaderboards|
      invariant 0 <= i <= |leaderboards|
      invariant |ranks| == i
      invariant forall c :: 0 <= c < i ==> ranks[c] == FindIndexInSlice(leaderboards[c], player) + 1
    {
      ranks := ranks + [0];
      var j := 0;
      while j < |leaderboards[i]|
        invariant 0 <= j <= |leaderboards[i]|
        invariant |ranks| == i + 1
        invariant forall c :: 0 <= c < i ==> ranks[c] == FindIndexInSlice(leaderboards[c], player) + 1
        invariant ranks[i] == 0 && player !in leaderboards[i][..j]
      {
        if leaderboards[i][j] == player {
          FindIndexUnique(leaderboards[i], player, j);
          ranks := ranks[i := j + 1];
          break;
        }
        assert leaderboards[i][..j + 1] == leaderboards[i][..j] + [leaderboards[i][j]];
        j := j + 1;
      }
      if ranks[i] == 0 {
        assert leaderboards[i][..j] == leaderboards[i];
      }
      i := i + 1;
    }
  }

  /** What a rank means: 0 exactly when the player is not on the board,
      and otherwise the place of the player's first occurrence, counted
      from 1. */
  lemma {:induction false} RankMeaning(board: seq<string>, player: string, rank: int)
    requires rank == FindIndexInSlice(board, player) + 1
    ensures 0 <= rank <= |board|
    ensures rank == 0 <==> player !in board
    ensures rank > 0 ==> board[rank - 1] == player && player !in board[..rank - 1]
  {
  }

  /** The first category whose query failed, or the number of categories
      when none did. */
  function FirstFailure(results: seq<Option<(real, int)>>): (e: nat)
    ensures e <= |results|
    ensures forall i :: 0 <= i < e ==> results[i].Some?
    ensures e < |results| ==> results[e].None?
  {
    if |results| == 0 then 0
    else if results[0].None? then 0
    else 1 + FirstFailure(results[1..])
  }

  /** putPlayerStatsInDicts and putPlayerHeroStatsInMaps, on the results of
      the per-category queries (a total and a duration, or a failure): each
      category's map gets the player's per-10-minute rate, in category
      order, until the first failed query, which stops the loop and is
      reported; the maps already written stay written. */
  method PutPlayerRates(player: string, dicts: seq<map<string, real>>, results: seq<Option<(real, int)>>)
    returns (updated: seq<map<string, real>>, ok: bool)
    requires |dicts| >= CategoryCount && |results| == CategoryCount
    requires forall i :: 0 <= i < CategoryCount && results[i].Some? ==> results[i].value.1 > 0
    ensures |updated| == |dicts|
    ensures ok <==> FirstFailure(results) == CategoryCount
    ensures forall i :: 0 <= i < |dicts| ==>
      updated[i] == if i < FirstFailure(results) then dicts[i][player := Per10(results[i].value.0, results[i].value.1)] else dicts[i]
  {
    updated := dicts;
    var i := 0;
    while i < CategoryCount
      invariant 0 <= i <= CategoryCount && i <= FirstFailure(results)
      invariant |updated| == |dicts|
      invariant forall c :: 0 <= c < |dicts| ==>
        updated[c] == if c < i then dicts[c][player := Per10(results[c].value.0, results[c].value.1)] else dicts[c]
    {
      if results[i].None? {
        ok := false;
        return;
      }
      var (outputStat, outputTime) := results[i].value;
      updated := updated[i := updated[i][player := Per10(outputStat, outputTime)]];
      i := i + 1;
    }
    ok := true;
  }
}
