/** Team records (getTeamMapStats, getTeamStats in functions.go): a
    team's map wins, losses and draws tallied over the rows of its
    matches. The database query is modelled by its rows, each a value or a
    scan failure; a failed query behaves as a first row that fails. */
module Teams {
  import opened Stats

  /** A team's record on one map (MapStats). */
  datatype MapStats = MapStats(name: string, wins: int, losses: int, draws: int)

  /** A team's record over all maps, with the per-map breakdown (TeamStats). */
  datatype TeamStats = TeamStats(team: string, mapWins: int, mapLosses: int, mapDraws: int, maps: seq<MapStats>)

  datatype Outcome = Win | Loss | Draw

  /** The reading of a map's winner column for a team: "draw" is a draw
      (checked first, whatever the team is called), the team's own name is
      a win, anything else a loss. */
  function OutcomeOf(winner: string, team: string): (o: Outcome)
    ensures o == Draw <==> winner == "draw"
    ensures o == Win <==> winner != "draw" && winner == team
    ensures o == Loss <==> winner != "draw" && winner != team
  {
    if winner == "draw" then Draw else if winner == team then Win else Loss
  }

  /** The values read before the first failed row. */
  function ReadRows<T>(rows: seq<Option<T>>): (vals: seq<T>)
    ensures |vals| <= |rows|
    ensures forall i :: 0 <= i < |vals| ==> rows[i] == Some(vals[i])
    ensures |vals| < |rows| ==> rows[|vals|] == None
  {
    if |rows| == 0 || rows[0].None? then [] else [rows[0].value] + ReadRows(rows[1..])
  }

  /** How many of the winners are the outcome o for the team. */
  function Count(winners: seq<string>, team: string, o: Outcome): nat {
    if |winners| == 0 then 0
    else Count(winners[..|winners| - 1], team, o) + (if OutcomeOf(winners[|winners| - 1], team) == o then 1 else 0)
  }

  /** The team's total for one outcome. */
  function Total(ts: TeamStats, o: Outcome): int {
    match o
    case Win => ts.mapWins
    case Loss => ts.mapLosses
    case Draw => ts.mapDraws
  }

  /** The team totals with n more of outcome o. */
  function AddTotal(ts: TeamStats, o: Outcome, n: int): (r: TeamStats)
    ensures r.team == ts.team && r.maps == ts.maps
    ensures forall o' :: Total(r, o') == Total(ts, o') + (if o' == o then n else 0)
  {
    match o
    case Win => ts.(mapWins := ts.mapWins + n)
    case Loss => ts.(mapLosses := ts.mapLosses + n)
    case Draw => ts.(mapDraws := ts.mapDraws + n)
  }

  /** getTeamMapStats's tally on one map's winners: one more win, loss or
      draw per row. */
  function TallyWinners(ts: TeamStats, winners: seq<string>): (r: TeamStats)
    ensures r.team == ts.team
  {
    if |winners| == 0 then ts
    else AddTotal(TallyWinners(ts, winners[..|winners| - 1]), OutcomeOf(winners[|winners| - 1], ts.team), 1)
  }

  /** The tally adds to each total exactly the number of rows with that
      outcome, and changes nothing else. */
  lemma {:induction false} TallyWinnersCounts(ts: TeamStats, winners: seq<string>)
    ensures var r := TallyWinners(ts, winners);
      r.team == ts.team && r.maps == ts.maps &&
      forall o :: Total(r, o) == Total(ts, o) + Count(winners, ts.team, o)
    decreases |winners|
  {
    if |winners| > 0 {
      TallyWinnersCounts(ts, winners[..|winners| - 1]);
    }
  }

  /** Every row is exactly one of win, loss and draw. */
  lemma {:induction false} CountsPartition(winners: seq<string>, team: string)
    ensures Count(winners, team, Win) + Count(winners, team, Loss) + Count(winners, team, Draw) == |winners|
    decreases |winners|
  {
    if |winners| > 0 {
      CountsPartition(winners[..|winners| - 1], team);
    }
  }

  /** getTeamMapStats, on the rows of its query: the tally over the rows
      read before a failed one; a failure is reported and the partial
      tally returned. */
  method GetTeamMapStats(ts: TeamStats, rows: seq<Option<string>>) returns (r: TeamStats, ok: bool)
    ensures r == TallyWinners(ts, ReadRows(rows))
    ensures ok <==> |ReadRows(rows)| == |rows|
  {
    r := ts;
    var i := 0;
    while i < |rows|
      invariant 0 <= i <= |ReadRows(rows)|
      invariant r == TallyWinners(ts, ReadRows(rows)[..i])
    {
      if rows[i].None? {
        assert ReadRows(rows)[..i] == ReadRows(rows);
        ok := false;
        return;
      }
      var winner := rows[i].value;
      assert ReadRows(rows)[..i + 1][..i] == ReadRows(rows)[..i];
      if winner == "draw" {
        r := r.(mapDraws := r.mapDraws + 1);
      } else if winner == r.team {
        r := r.(mapWins := r.mapWins + 1);
      } else {
        r := r.(mapLosses := r.mapLosses + 1);
      }
      i := i + 1;
    }
    assert ReadRows(rows)[..i] == ReadRows(rows);
    ok := true;
  }

  // ---------------------------------------------------------------------
  // Per-map breakdown

  /** A map record's count for one outcome. */
  function Field(m: MapStats, o: Outcome): int {
    match o
    case Win => m.wins
    case Loss => m.losses
    case Draw => m.draws
  }

  /** A map record with one more of outcome o. */
  function Bump(m: MapStats, o: Outcome): (r: MapStats)
    ensures r.name == m.name
    ensures forall o' :: Field(r, o') == Field(m, o') + (if o' == o then 1 else 0)
  {
    match o
    case Win => m.(wins := m.wins + 1)
    case Loss => m.(losses := m.losses + 1)
    case Draw => m.(draws := m.draws + 1)
  }

  /** How many map records carry the name. */
  function Hits(maps: seq<MapStats>, name: string): nat {
    if |maps| == 0 then 0 else (if maps[0].name == name then 1 else 0) + Hits(maps[1..], name)
  }

  /** Every record with the name bumped by one of outcome o (the inner
      loop of getTeamStats has no break). */
  function BumpAll(maps: seq<MapStats>, name: string, o: Outcome): (r: seq<MapStats>)
    ensures |r| == |maps|
    ensures forall i :: 0 <= i < |maps| ==> r[i] == if maps[i].name == name then Bump(maps[i], o) else maps[i]
  {
    if |maps| == 0 then [] else [if maps[0].name == name then Bump(maps[0], o) else maps[0]] + BumpAll(maps[1..], name, o)
  }

  /** The sum of one outcome over the map records. */
  function Sum(maps: seq<MapStats>, o: Outcome): int {
    if |maps| == 0 then 0 else Field(maps[0], o) + Sum(maps[1..], o)
  }

  /** A fresh map record holding one result. */
  function NewMap(name: string, o: Outcome): MapStats {
    Bump(MapStats(name, 0, 0, 0), o)
  }

  /** One row of getTeamStats: every record of the row's map and the team
      total gain the row's result once per record found; a map with no
      record gets a fresh one, and the total gains the result once. */
  function AddRow(ts: TeamStats, mapName: string, winner: string): TeamStats {
    var o := OutcomeOf(winner, ts.team);
    var hits := Hits(ts.maps, mapName);
    if hits > 0 then AddTotal(ts.(maps := BumpAll(ts.maps, mapName, o)), o, hits)
    else AddTotal(ts.(maps := ts.maps + [NewMap(mapName, o)]), o, 1)
  }

  /** getTeamStats's fold over the rows read. */
  function TeamRows(ts: TeamStats, rows: seq<(string, string)>): TeamStats {
    if |rows| == 0 then ts
    else var last := rows[|rows| - 1]; AddRow(TeamRows(ts, rows[..|rows| - 1]), last.0, last.1)
  }

  /** No two map records share a name. */
  predicate DistinctMaps(maps: seq<MapStats>) {
    forall i, j :: 0 <= i < j < |maps| ==> maps[i].name != maps[j].name
  }

  /** The team totals agree with the per-map breakdown. */
  predicate Consistent(ts: TeamStats) {
    forall o :: Sum(ts.maps, o) == Total(ts, o)
  }

  /** Bumping every record of a name adds, to the sum of its outcome, one
      per record found. */
  lemma {:induction false} SumBumpAll(maps: seq<MapStats>, name: string, o: Outcome, o': Outcome)
    ensures Sum(BumpAll(maps, name, o), o') == Sum(maps, o') + (if o' == o then Hits(maps, name) else 0)
    decreases |maps|
  {
    if |maps| > 0 {
      SumBumpAll(maps[1..], name, o, o');
      assert BumpAll(maps, name, o)[1..] == BumpAll(maps[1..], name, o);
    }
  }

  /** Sums split over concatenation. */
  lemma {:induction false} SumAppend(maps: seq<MapStats>, m: MapStats, o: Outcome)
    ensures Sum(maps + [m], o) == Sum(maps, o) + Field(m, o)
    decreases |maps|
  {
    if |maps| > 0 {
      assert (maps + [m])[1..] == maps[1..] + [m];
      SumAppend(maps[1..], m, o);
    }
  }

  /** With distinct names a map is found at most once. */
  lemma {:induction false} HitsDistinct(maps: seq<MapStats>, name: string)
    requires DistinctMaps(maps)
    ensures Hits(maps, name) <= 1
    ensures Hits(maps, name) == 0 <==> forall i :: 0 <= i < |maps| ==> maps[i].name != name
    decreases |maps|
  {
    if |maps| > 0 {
      assert DistinctMaps(maps[1..]) by {
        forall i, j | 0 <= i < j < |maps[1..]| ensures maps[1..][i].name != maps[1..][j].name {
          assert maps[1..][i] == maps[i + 1] && maps[1..][j] == maps[j + 1];
        }
      }
      HitsDistinct(maps[1..], name);
      if maps[0].name == name {
        assert forall i :: 0 <= i < |maps[1..]| ==> maps[1..][i].name != name by {
          forall i | 0 <= i < |maps[1..]| ensures maps[1..][i].name != name {
            assert maps[1..][i] == maps[i + 1];
          }
        }
      } else {
        assert forall i :: 0 <= i < |maps[1..]| ==> (maps[1..][i].name != name <==> maps[i + 1].name != name);
      }
    }
  }

  /** One row keeps the totals in agreement with the breakdown. */
  lemma {:induction false} AddRowConsistent(ts: TeamStats, mapName: string, winner: string)
    requires Consistent(ts)
    ensures Consistent(AddRow(ts, mapName, winner))
  {
    var o := OutcomeOf(winner, ts.team);
    forall o' ensures Sum(AddRow(ts, mapName, winner).maps, o') == Total(AddRow(ts, mapName, winner), o') {
      if Hits(ts.maps, mapName) > 0 {
        SumBumpAll(ts.maps, mapName, o, o');
      } else {
        SumAppend(ts.maps, NewMap(mapName, o), o');
      }
    }
  }

  /** The names of the map records, in order. */
  function MapNames(maps: seq<MapStats>): (ns: seq<string>)
    ensures |ns| == |maps|
    ensures forall i :: 0 <= i < |maps| ==> ns[i] == maps[i].name
  {
    seq(|maps|, i requires 0 <= i < |maps| => maps[i].name)
  }

  /** One row keeps map names distinct, and afterwards the row's map has
      a record. */
  lemma {:induction false} AddRowDistinct(ts: TeamStats, mapName: string, winner: string)
    requires DistinctMaps(ts.maps)
    ensures DistinctMaps(AddRow(ts, mapName, winner).maps)
    ensures mapName in MapNames(AddRow(ts, mapName, winner).maps)
  {
    var o := OutcomeOf(winner, ts.team);
    HitsDistinct(ts.maps, mapName);
    var r := AddRow(ts, mapName, winner).maps;
    if Hits(ts.maps, mapName) > 0 {
      var i :| 0 <= i < |ts.maps| && ts.maps[i].name == mapName;
      assert MapNames(r)[i] == mapName;
    } else {
      assert MapNames(r)[|ts.maps|] == mapName;
    }
  }

  /** Map names, once present, stay present. */
  lemma {:induction false} AddRowKeepsNames(ts: TeamStats, mapName: string, winner: string, name: string)
    requires name in MapNames(ts.maps)
    ensures name in MapNames(AddRow(ts, mapName, winner).maps)
  {
    var i :| 0 <= i < |ts.maps| && MapNames(ts.maps)[i] == name;
    assert MapNames(AddRow(ts, mapName, winner).maps)[i] == name;
  }

  /** With distinct names, one row adds exactly one result to the team
      totals: one more of its outcome. */
  lemma {:induction false} AddRowTotals(ts: TeamStats, mapName: string, winner: string)
    requires DistinctMaps(ts.maps)
    ensures forall o :: (Total(AddRow(ts, mapName, winner), o) ==
      Total(ts, o) + (if o == OutcomeOf(winner, ts.team) then 1 else 0))
    ensures AddRow(ts, mapName, winner).team == ts.team
  {
    HitsDistinct(ts.maps, mapName);
  }

  /** The winners column of the rows. */
  function Winners(rows: seq<(string, string)>): (w: seq<string>)
    ensures |w| == |rows|
    ensures forall i :: 0 <= i < |rows| ==> w[i] == rows[i].1
  {
    seq(|rows|, i requires 0 <= i < |rows| => rows[i].1)
  }

  /** Over all rows, starting from distinct names and agreeing totals:
      names stay distinct and the totals keep agreeing with the
      breakdown. */
  lemma {:induction false} TeamRowsConsistent(ts: TeamStats, rows: seq<(string, string)>)
    requires DistinctMaps(ts.maps) && Consistent(ts)
    ensures TeamRows(ts, rows).team == ts.team
    ensures DistinctMaps(TeamRows(ts, rows).maps) && Consistent(TeamRows(ts, rows))
    decreases |rows|
  {
    if |rows| > 0 {
      var init := rows[..|rows| - 1];
      var last := rows[|rows| - 1];
      TeamRowsConsistent(ts, init);
      AddRowConsistent(TeamRows(ts, init), last.0, last.1);
      AddRowDistinct(TeamRows(ts, init), last.0, last.1);
      AddRowTotals(TeamRows(ts, init), last.0, last.1);
    }
  }

  /** Starting from distinct names, each team total grows by exactly the
      number of rows with that outcome. */
  lemma {:induction false} TeamRowsTotals(ts: TeamStats, rows: seq<(string, string)>)
    requires DistinctMaps(ts.maps)
    ensures forall o :: Total(TeamRows(ts, rows), o) == Total(ts, o) + Count(Winners(rows), ts.team, o)
    decreases |rows|
  {
    if |rows| > 0 {
      var init := rows[..|rows| - 1];
      var last := rows[|rows| - 1];
      TeamRowsTotals(ts, init);
      TeamRowsDistinct(ts, init);
      AddRowTotals(TeamRows(ts, init), last.0, last.1);
      assert Winners(rows)[..|rows| - 1] == Winners(init);
    }
  }

  /** After the rows, every row's map has a record. */
  lemma {:induction false} TeamRowsPresent(ts: TeamStats, rows: seq<(string, string)>)
    requires DistinctMaps(ts.maps)
    ensures forall k :: 0 <= k < |rows| ==> rows[k].0 in MapNames(TeamRows(ts, rows).maps)
    decreases |rows|
  {
    if |rows| > 0 {
      var init := rows[..|rows| - 1];
      var last := rows[|rows| - 1];
      TeamRowsPresent(ts, init);
      TeamRowsDistinct(ts, init);
      var prev := TeamRows(ts, init);
      AddRowDistinct(prev, last.0, last.1);
      forall k | 0 <= k < |rows| - 1 ensures rows[k].0 in MapNames(AddRow(prev, last.0, last.1).maps) {
        assert init[k] == rows[k];
        AddRowKeepsNames(prev, last.0, last.1, rows[k].0);
      }
    }
  }

  /** Map names stay distinct over all rows, and the team is kept. */
  lemma {:induction false} TeamRowsDistinct(ts: TeamStats, rows: seq<(string, string)>)
    requires DistinctMaps(ts.maps)
    ensures DistinctMaps(TeamRows(ts, rows).maps) && TeamRows(ts, rows).team == ts.team
    decreases |rows|
  {
    if |rows| > 0 {
      TeamRowsDistinct(ts, rows[..|rows| - 1]);
      AddRowDistinct(TeamRows(ts, rows[..|rows| - 1]), rows[|rows| - 1].0, rows[|rows| - 1].1);
    }
  }

  /** getTeamStats, on the rows of its query: the fold over the rows read
      before a failed one, with the source's inner loop over the map
      records; a failure is reported and the partial result returned. */
  method GetTeamStats(ts: TeamStats, rows: seq<Option<(string, string)>>) returns (r: TeamStats, ok: bool)
    ensures r == TeamRows(ts, ReadRows(rows))
    ensures ok <==> |ReadRows(rows)| == |rows|
  {
    r := ts;
    var n := 0;
    while n < |rows|
      invariant 0 <= n <= |ReadRows(rows)|
      invariant r == TeamRows(ts, ReadRows(rows)[..n])
    {
      if rows[n].None? {
        assert ReadRows(rows)[..n] == ReadRows(rows);
        ok := false;
        return;
      }
      var (mapName, winner) := rows[n].value;
      assert ReadRows(rows)[..n + 1][..n] == ReadRows(rows)[..n];
      r := TeamRow(r, mapName, winner);
      n := n + 1;
    }
    assert ReadRows(rows)[..n] == ReadRows(rows);
    ok := true;
  }

  /** Two team records with the same team, breakdown and totals are equal. */
  lemma TeamStatsExt(a: TeamStats, b: TeamStats)
    requires a.team == b.team && a.maps == b.maps
    requires forall o :: Total(a, o) == Total(b, o)
    ensures a == b
  {
    assert Total(a, Win) == Total(b, Win) && Total(a, Loss) == Total(b, Loss) && Total(a, Draw) == Total(b, Draw);
  }

  /** No record of the name: nothing is bumped. */
  lemma {:induction false} BumpAllNoHits(maps: seq<MapStats>, name: string, o: Outcome)
    requires Hits(maps, name) == 0
    ensures BumpAll(maps, name, o) == maps
    decreases |maps|
  {
    if |maps| > 0 {
      BumpAllNoHits(maps[1..], name, o);
    }
  }

  /** One row of getTeamStats as the source's loop over the map records:
      every record of the map is bumped (no break), then a fresh record is
      appended when none was found. */
  method TeamRow(ts: TeamStats, mapName: string, winner: string) returns (r: TeamStats)
    ensures r == AddRow(ts, mapName, winner)
  {
    ghost var o := OutcomeOf(winner, ts.team);
    r := ts;
    var found := false;
    var i := 0;
    while i < |r.maps|
      invariant 0 <= i <= |ts.maps| && |r.maps| == |ts.maps| && r.team == ts.team
      invariant forall k :: 0 <= k < |ts.maps| ==>
        r.maps[k] == if k < i && ts.maps[k].name == mapName then Bump(ts.maps[k], o) else ts.maps[k]
      invariant found <==> Hits(ts.maps[..i], mapName) > 0
      invariant forall o' :: Total(r, o') == Total(ts, o') + (if o' == o then Hits(ts.maps[..i], mapName) else 0)
    {
      HitsSnoc(ts.maps, i, mapName);
      if mapName != r.maps[i].name {
        i := i + 1;
        continue;
      }
      ghost var prev := r;
      if winner == "draw" {
        r := r.(maps := r.maps[i := r.maps[i].(draws := r.maps[i].draws + 1)], mapDraws := r.mapDraws + 1);
        found := true;
      } else if winner == r.team {
        r := r.(maps := r.maps[i := r.maps[i].(wins := r.maps[i].wins + 1)], mapWins := r.mapWins + 1);
        found := true;
      } else {
        r := r.(maps := r.maps[i := r.maps[i].(losses := r.maps[i].losses + 1)], mapLosses := r.mapLosses + 1);
        found := true;
      }
      assert r.maps == prev.maps[i := Bump(prev.maps[i], o)] && r.team == prev.team;
      assert forall o' :: Total(r, o') == Total(prev, o') + (if o' == o then 1 else 0);
      i := i + 1;
    }
    assert ts.maps[..i] == ts.maps;
    assert r.maps == BumpAll(ts.maps, mapName, o);
    ghost var hits := Hits(ts.maps, mapName);
    assert forall o' :: Total(r, o') == Total(ts, o') + (if o' == o then hits else 0);
    if !found {
      BumpAllNoHits(ts.maps, mapName, o);
      ghost var before := r;
      if winner == "draw" {
        r := r.(maps := r.maps + [MapStats(mapName, 0, 0, 1)], mapDraws := r.mapDraws + 1);
      } else if winner == r.team {
        r := r.(maps := r.maps + [MapStats(mapName, 1, 0, 0)], mapWins := r.mapWins + 1);
      } else {
        r := r.(maps := r.maps + [MapStats(mapName, 0, 1, 0)], mapLosses := r.mapLosses + 1);
      }
      assert r.maps == ts.maps + [NewMap(mapName, o)];
      assert forall o' :: Total(r, o') == Total(before, o') + (if o' == o then 1 else 0);
    }
    TeamStatsExt(r, AddRow(ts, mapName, winner));
  }

  /** Hits over a prefix one longer. */
  lemma {:induction false} HitsSnoc(maps: seq<MapStats>, i: nat, name: string)
    requires i < |maps|
    ensures Hits(maps[..i + 1], name) == Hits(maps[..i], name) + (if maps[i].name == name then 1 else 0)
    decreases i
  {
    if i > 0 {
      assert maps[..i + 1][1..] == maps[1..][..i];
      assert maps[..i][1..] == maps[1..][..i - 1];
      HitsSnoc(maps[1..], i - 1, name);
    }
  }
}
