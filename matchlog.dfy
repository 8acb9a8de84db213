/** Match-log ingestion (readFile and its helpers in functions.go).

    A log is a sequence of text lines, ten per reporting tick, one per
    player slot. A line's comma-separated columns are: 1 the player's name,
    2 the hero, 3..12 the ten cumulative stat counters, 13 the team. The
    first line of every tick also starts with a "[H:MM:SS]" timestamp.

    The reader walks the lines once. The first ten name the player slots.
    At the first line of each tick the timestamp decides the phase: the
    tick is live when its seconds are at most ten past the previous tick's,
    and a live tick adds five seconds of playtime. Lines of setup ticks are
    kept as the slot's previous line; a live line after the first ten
    attributes the difference to the slot's previous line to the hero the
    player is on. Finally the last ten lines give each player's match
    totals verbatim. */
module MatchLog {
  import opened Text
  import opened Stats
  import opened Slices

  /** Player slots, and so lines per tick. */
  const SlotCount: nat := 10
  /** A tick is live when its clock is at most this far past the previous one. */
  const ContinuitySeconds: int := 10

  // ---------------------------------------------------------------------
  // One line

  /** A line's comma-separated columns (strings.Split(line, ",")). */
  function Fields(line: string): seq<string> { Split(line, ',') }

  /** A line with every column the reader indexes: name, hero, the ten
      counters and the team. */
  predicate IsStatLine(line: string) { |Fields(line)| >= 14 }

  /** stringStatsToFloatStats: columns 3..12 read as numbers, in category
      order; a column that does not parse counts as 0. */
  function StringStatsToFloatStats(fields: seq<string>): (v: StatLine)
    requires |fields| >= 13
    ensures forall k :: 0 <= k < 10 ==> Stat(v, k) == ParseNum(fields[3 + k])
  {
    StatLine(ParseNum(fields[3]), ParseNum(fields[4]), ParseNum(fields[5]),
             ParseNum(fields[6]), ParseNum(fields[7]), ParseNum(fields[8]),
             ParseNum(fields[9]), ParseNum(fields[10]), ParseNum(fields[11]),
             ParseNum(fields[12]))
  }

  /** subtractStats: how far each counter moved from the old line to the
      new one. */
  function SubtractStats(newLine: string, oldLine: string): (d: StatLine)
    requires |Fields(newLine)| >= 13 && |Fields(oldLine)| >= 13
    ensures forall k :: 0 <= k < 10 ==>
      Stat(d, k) == ParseNum(Fields(newLine)[3 + k]) - ParseNum(Fields(oldLine)[3 + k])
    ensures Add(StringStatsToFloatStats(Fields(oldLine)), d) == StringStatsToFloatStats(Fields(newLine))
  {
    AddSub(StringStatsToFloatStats(Fields(newLine)), StringStatsToFloatStats(Fields(oldLine)));
    Sub(StringStatsToFloatStats(Fields(newLine)), StringStatsToFloatStats(Fields(oldLine)))
  }

  /** The colon-separated parts of a line's timestamp: its first
      space-separated token with the brackets removed. */
  function TimeParts(line: string): seq<string> {
    Split(RemoveAll(RemoveAll(Split(line, ' ')[0], '['), ']'), ':')
  }

  /** A timestamp with the hour, minute and second parts the reader indexes. */
  predicate HasTimestamp(line: string) { |TimeParts(line)| >= 3 }

  /** getCurrentSeconds: minutes * 60 + seconds of the line's timestamp. */
  function GetCurrentSeconds(line: string): int
    requires HasTimestamp(line)
  {
    var parts := TimeParts(line);
    Atoi(parts[1]) * 60 + Atoi(parts[2])
  }

  /** The first space-separated token of a line that starts with a
      space-free token followed by a space or by nothing. */
  lemma {:induction false} FirstToken(token: string, rest: string)
    requires ' ' !in token && (rest == [] || rest[0] == ' ')
    ensures Split(token + rest, ' ')[0] == token
  {
    if rest == [] {
      assert token + rest == token;
      SplitNoSep(token, ' ');
    } else {
      assert token + rest == token + [' '] + rest[1..];
      SplitFirst(token, ' ', rest[1..]);
    }
  }

  /** Removing the brackets around bracket-free text gives the text. */
  lemma {:induction false} Unbracket(inner: string)
    requires '[' !in inner && ']' !in inner
    ensures RemoveAll(RemoveAll("[" + inner + "]", '['), ']') == inner
  {
    assert "[" + inner + "]" == "[" + (inner + "]");
    RemoveAllConcat("[", inner + "]", '[');
    RemoveAllConcat(inner, "]", '[');
    RemoveAllAbsent(inner, '[');
    assert RemoveAll("[" + inner + "]", '[') == inner + "]";
    RemoveAllConcat(inner, "]", ']');
    RemoveAllAbsent(inner, ']');
  }

  /** Three colon-free parts joined by colons split back into the three. */
  lemma {:induction false} ThreeParts(h: string, m: string, s: string)
    requires ':' !in h && ':' !in m && ':' !in s
    ensures Split(h + ":" + m + ":" + s, ':') == [h, m, s]
  {
    assert h + ":" + m + ":" + s == h + [':'] + (m + [':'] + s);
    SplitFirst(h, ':', m + [':'] + s);
    SplitFirst(m, ':', s);
    SplitNoSep(s, ':');
  }

  /** A string of digits holds no punctuation. */
  lemma {:induction false} DigitsArePlain(d: string)
    requires AllDigits(d)
    ensures ' ' !in d && '[' !in d && ']' !in d && ':' !in d
  {
    assert forall i :: 0 <= i < |d| ==> IsDigit(d[i]);
  }

  /** A timestamp "[h:m:s]" followed by the end of the line or by a space
      reads as m * 60 + s; the hour is not looked at. */
  lemma {:induction false} TimestampSeconds(h: string, m: string, s: string, rest: string)
    requires |h| > 0 && |m| > 0 && |s| > 0 && AllDigits(h) && AllDigits(m) && AllDigits(s)
    requires rest == [] || rest[0] == ' '
    ensures HasTimestamp("[" + h + ":" + m + ":" + s + "]" + rest)
    ensures GetCurrentSeconds("[" + h + ":" + m + ":" + s + "]" + rest) == DigitsValue(m) * 60 + DigitsValue(s)
  {
    DigitsArePlain(h);
    DigitsArePlain(m);
    DigitsArePlain(s);
    var inner := h + ":" + m + ":" + s;
    assert ' ' !in inner && '[' !in inner && ']' !in inner;
    var token := "[" + inner + "]";
    assert ' ' !in token;
    FirstToken(token, rest);
    assert "[" + h + ":" + m + ":" + s + "]" + rest == token + rest;
    Unbracket(inner);
    ThreeParts(h, m, s);
    assert TimeParts(token + rest) == [h, m, s];
    assert IsIntegerNumeral(m) && IsIntegerNumeral(s);
  }

  // ---------------------------------------------------------------------
  // Players and heroes

  function Names(players: seq<PlayerStats>): (names: seq<string>)
    ensures |names| == |players|
    ensures forall k :: 0 <= k < |players| ==> names[k] == players[k].name
  {
    seq(|players|, k requires 0 <= k < |players| => players[k].name)
  }

  function HeroNames(heroes: seq<HeroStats>): (names: seq<string>)
    ensures |names| == |heroes|
    ensures forall k :: 0 <= k < |heroes| ==> names[k] == heroes[k].hero
  {
    seq(|heroes|, k requires 0 <= k < |heroes| => heroes[k].hero)
  }

  /** The first slot holding a player of that name, or -1. */
  function FirstNamed(players: seq<PlayerStats>, name: string): int {
    FindIndexInSlice(Names(players), name)
  }

  /** The player's entry for that hero, or -1. */
  function HeroIndex(heroes: seq<HeroStats>, hero: string): int {
    FindIndexInSlice(HeroNames(heroes), hero)
  }

  /** No two slots hold the same player name. */
  predicate NamesDistinct(players: seq<PlayerStats>) {
    forall a, b :: 0 <= a < b < |players| ==> players[a].name != players[b].name
  }

  /** getPlayerNames: line number lineCount (1..10) names slot lineCount - 1. */
  function GetPlayerNames(line: string, lineCount: nat, players: seq<PlayerStats>): (r: seq<PlayerStats>)
    requires 1 <= lineCount <= |players| && |Fields(line)| >= 2
    ensures |r| == |players|
    ensures r[lineCount - 1].name == Fields(line)[1]
    ensures forall k :: 0 <= k < |r| && k != lineCount - 1 ==> r[k] == players[k]
  {
    players[lineCount - 1 := players[lineCount - 1].(name := Fields(line)[1])]
  }

  /** A fresh hero entry: the tick that first shows the hero counts no
      time and no stats toward it. */
  function NewHero(hero: string): HeroStats { HeroStats(hero, 0, Zero) }

  /** What getHeroStats needs: ten slots, a stat line, and a stat line as
      the slot's previous line if the player is known (otherwise
      subtractStats indexes past the end of the split). The current line
      is asked for the log's full stat-line shape of 14 columns, as the
      whole-log precondition asks of every line; getHeroStats itself reads
      at most column 12 of it for a known player, and only columns 1 and 2
      for a name not yet in the slots. */
  predicate HeroTickReady(line: string, players: seq<PlayerStats>, prevLines: seq<string>, index: nat) {
    |players| == SlotCount && |prevLines| == SlotCount && index < SlotCount && IsStatLine(line) &&
    (FirstNamed(players, Fields(line)[1]) >= 0 ==> |Fields(prevLines[index])| >= 13)
  }

  /** getHeroStats: the updated record of the line's player and the
      updated previous lines. A known player's entry for the line's hero
      gains five seconds and the counters' movement since the slot's
      previous line; a hero without an entry gets a fresh one instead. The
      slot's previous line becomes this line. For an unknown name the
      source hands back the last slot's record and the previous lines as
      they were. */
  function HeroTick(line: string, players: seq<PlayerStats>, prevLines: seq<string>, index: nat): (PlayerStats, seq<string>)
    requires HeroTickReady(line, players, prevLines, index)
  {
    var f := Fields(line);
    var i := FirstNamed(players, f[1]);
    if i < 0 then (players[SlotCount - 1], prevLines)
    else (CreditHero(players[i], f[2], SubtractStats(line, prevLines[index])), prevLines[index := line])
  }

  /** The hero-list update of getHeroStats for a known player: the entry
      for the hero gains five seconds and the delta, or a fresh entry is
      appended when there is none. */
  function CreditHero(p: PlayerStats, hero: string, delta: StatLine): PlayerStats {
    var j := HeroIndex(p.heroes, hero);
    p.(heroes :=
      if j >= 0 then
        p.heroes[j := AddHeroStats(p.heroes[j].(timeSpentInSeconds := p.heroes[j].timeSpentInSeconds + TickSeconds), delta)]
      else p.heroes + [NewHero(hero)])
  }

  /** readFile's write-back of a record: into the first slot with the
      record's name (break after the first match). */
  function Store(players: seq<PlayerStats>, p: PlayerStats): (r: seq<PlayerStats>)
    ensures Names(r) == Names(players)
  {
    var j := FirstNamed(players, p.name);
    if j >= 0 then players[j := p] else players
  }

  /** A known player whose hero has an entry already: that entry gains
      exactly five seconds and, in each category, the tick's delta; no
      other entry and no other field of the player changes. */
  lemma {:induction false} CreditKnownHero(p: PlayerStats, hero: string, delta: StatLine, j: int)
    requires j == HeroIndex(p.heroes, hero) && j >= 0
    ensures var q := CreditHero(p, hero, delta);
      q.name == p.name && q.team == p.team && q.durationInSeconds == p.durationInSeconds &&
      q.stats == p.stats && |q.heroes| == |p.heroes| &&
      q.heroes[j].hero == hero &&
      q.heroes[j].timeSpentInSeconds == p.heroes[j].timeSpentInSeconds + TickSeconds &&
      (forall k :: 0 <= k < 10 ==> Stat(q.heroes[j].stats, k) == Stat(p.heroes[j].stats, k) + Stat(delta, k)) &&
      (forall m :: 0 <= m < |q.heroes| && m != j ==> q.heroes[m] == p.heroes[m])
  {
  }

  /** A line of a known player whose hero has an entry already: the entry
      gains exactly five seconds and, in each category, the current
      counter minus the slot's previous counter; no other entry and no
      other field of the player changes, and the slot's previous line
      becomes this line. */
  lemma {:induction false} AttributionToKnownHero(line: string, players: seq<PlayerStats>, prevLines: seq<string>, index: nat, i: int, j: int)
    requires HeroTickReady(line, players, prevLines, index)
    requires i == FirstNamed(players, Fields(line)[1]) && i >= 0
    requires j == HeroIndex(players[i].heroes, Fields(line)[2]) && j >= 0
    ensures var t := HeroTick(line, players, prevLines, index); var p := t.0;
      var before := players[i].heroes[j];
      p.name == players[i].name && p.team == players[i].team &&
      p.durationInSeconds == players[i].durationInSeconds && p.stats == players[i].stats &&
      |p.heroes| == |players[i].heroes| &&
      p.heroes[j].hero == before.hero &&
      p.heroes[j].timeSpentInSeconds == before.timeSpentInSeconds + TickSeconds &&
      (forall k :: 0 <= k < 10 ==>
        Stat(p.heroes[j].stats, k) ==
          Stat(before.stats, k) + (ParseNum(Fields(line)[3 + k]) - ParseNum(Fields(prevLines[index])[3 + k]))) &&
      (forall m :: 0 <= m < |p.heroes| && m != j ==> p.heroes[m] == players[i].heroes[m]) &&
      t.1 == prevLines[index := line]
  {
    var delta := SubtractStats(line, prevLines[index]);
    CreditKnownHero(players[i], Fields(line)[2], delta, j);
  }

  /** The same known player's lines, on a hero with an entry, in two
      consecutive live ticks (the same slot position, ten lines apart),
      each passed through HeroTick and written back as readFile does: the entry gains ten seconds and,
      in each category, the movement from the slot's previous line to the
      second line, so the per-tick deltas add up to the counters' total
      movement. */
  lemma {:induction false} ConsecutiveTicks(l1: string, l2: string, players: seq<PlayerStats>, prevLines: seq<string>, index: nat)
    requires HeroTickReady(l1, players, prevLines, index) && IsStatLine(l2)
    requires Fields(l2)[1] == Fields(l1)[1] && Fields(l2)[2] == Fields(l1)[2]
    requires FirstNamed(players, Fields(l1)[1]) >= 0
    requires HeroIndex(players[FirstNamed(players, Fields(l1)[1])].heroes, Fields(l1)[2]) >= 0
    ensures HeroTickReady(l2, Store(players, HeroTick(l1, players, prevLines, index).0), HeroTick(l1, players, prevLines, index).1, index)
    ensures var t1 := HeroTick(l1, players, prevLines, index);
      var t2 := HeroTick(l2, Store(players, t1.0), t1.1, index);
      var i := FirstNamed(players, Fields(l1)[1]);
      var j := HeroIndex(players[i].heroes, Fields(l1)[2]);
      |t2.0.heroes| == |players[i].heroes| &&
      t2.0.heroes[j].timeSpentInSeconds == players[i].heroes[j].timeSpentInSeconds + 2 * TickSeconds &&
      t2.0.heroes[j].stats == Add(players[i].heroes[j].stats,
        Sub(StringStatsToFloatStats(Fields(l2)), StringStatsToFloatStats(Fields(prevLines[index])))) &&
      t2.1 == prevLines[index := l2]
  {
    var name := Fields(l1)[1];
    var hero := Fields(l1)[2];
    var i := FirstNamed(players, name);
    var j := HeroIndex(players[i].heroes, hero);
    var t1 := HeroTick(l1, players, prevLines, index);
    AttributionToKnownHero(l1, players, prevLines, index, i, j);
    var ps := Store(players, t1.0);
    assert Names(players)[i] == name;
    assert ps == players[i := t1.0];
    assert Names(ps) == Names(players);
    assert HeroNames(t1.0.heroes) == HeroNames(players[i].heroes);
    assert ps[i] == t1.0;
    AttributionToKnownHero(l2, ps, t1.1, index, i, j);
    var t2 := HeroTick(l2, ps, t1.1, index);
    var s0 := StringStatsToFloatStats(Fields(prevLines[index]));
    var s1 := StringStatsToFloatStats(Fields(l1));
    var s2 := StringStatsToFloatStats(Fields(l2));
    var h0 := players[i].heroes[j].stats;
    assert t1.1[index] == l1;
    assert t1.0.heroes[j].stats == Add(h0, Sub(s1, s0));
    assert t2.0.heroes[j].stats == Add(t1.0.heroes[j].stats, Sub(s2, s1));
    DeltasTelescope(h0, s0, s1, s2);
  }

  /** A line of a known player on a hero without an entry: the list grows
      by exactly one fresh entry (zero time, zero stats) and the tick's
      movement is dropped; the slot's previous line becomes this line. */
  lemma {:induction false} FirstSightOfHero(line: string, players: seq<PlayerStats>, prevLines: seq<string>, index: nat, i: int)
    requires HeroTickReady(line, players, prevLines, index)
    requires i == FirstNamed(players, Fields(line)[1]) && i >= 0
    requires HeroIndex(players[i].heroes, Fields(line)[2]) < 0
    ensures var t := HeroTick(line, players, prevLines, index);
      t.0 == players[i].(heroes := players[i].heroes + [HeroStats(Fields(line)[2], 0, Zero)]) &&
      t.1 == prevLines[index := line]
  {
  }

  /** A name no slot holds: the source hands back the last slot's record
      and the previous lines untouched. */
  lemma {:induction false} UnknownPlayerLine(line: string, players: seq<PlayerStats>, prevLines: seq<string>, index: nat)
    requires HeroTickReady(line, players, prevLines, index)
    requires FirstNamed(players, Fields(line)[1]) < 0
    ensures HeroTick(line, players, prevLines, index) == (players[SlotCount - 1], prevLines)
  {
  }

  // ---------------------------------------------------------------------
  // Ticks of a log

  /** Every line is a stat line and every tick's first line has a timestamp. */
  predicate LinesOk(lines: seq<string>) {
    (forall n :: 0 <= n < |lines| ==> IsStatLine(lines[n])) &&
    (forall n :: 0 <= n < |lines| && n % 10 == 0 ==> HasTimestamp(lines[n]))
  }

  /** The clock of tick t, read from its first line. */
  function HeaderSeconds(lines: seq<string>, t: nat): int
    requires LinesOk(lines) && 10 * t < |lines|
  {
    GetCurrentSeconds(lines[10 * t])
  }

  /** Tick t is live when its clock is at most ten seconds past the
      previous tick's (past 0 for the first tick). */
  predicate TickLive(lines: seq<string>, t: nat)
    requires LinesOk(lines) && 10 * t < |lines|
  {
    HeaderSeconds(lines, t) <= (if t == 0 then 0 else HeaderSeconds(lines, t - 1)) + ContinuitySeconds
  }

  /** How many of the first n lines are the first line of a live tick. */
  function LiveHeaders(lines: seq<string>, n: nat): nat
    requires LinesOk(lines) && n <= |lines|
  {
    if n == 0 then 0
    else LiveHeaders(lines, n - 1) + (if (n - 1) % 10 == 0 && TickLive(lines, (n - 1) / 10) then 1 else 0)
  }

  /** The previous line of a slot is only empty until a setup tick stores
      one; subtracting against an empty line indexes out of range. A live
      line after the first ten therefore needs a setup tick before it:
      the first tick, or the second. */
  predicate EarlyTickSetup(lines: seq<string>)
    requires LinesOk(lines)
  {
    |lines| <= 10 || !TickLive(lines, 0) || !TickLive(lines, 1)
  }

  /** Every input readFile handles without a runtime panic: at least the
      ten lines the end-of-match pass takes, and the shape above. */
  predicate MatchLogOk(lines: seq<string>) {
    |lines| >= SlotCount && LinesOk(lines) && EarlyTickSetup(lines)
  }

  // ---------------------------------------------------------------------
  // The reading loop

  /** readFile's loop variables. */
  datatype Reader = Reader(
    lineCount: nat, prevSeconds: int, totalTimeInSeconds: int, setupPhase: bool,
    players: seq<PlayerStats>, prevLines: seq<string>)

  /** The loop's variables before the first line: ten zero-valued
      player records and ten empty previous lines. */
  const Initial: Reader := Reader(0, 0, 0, false,
    [EmptyPlayer, EmptyPlayer, EmptyPlayer, EmptyPlayer, EmptyPlayer,
     EmptyPlayer, EmptyPlayer, EmptyPlayer, EmptyPlayer, EmptyPlayer],
    ["", "", "", "", "", "", "", "", "", ""])

  datatype Phase = Phase(prevSeconds: int, totalTimeInSeconds: int, setupPhase: bool)

  /** The phase variables after the next line: at a tick's first line the
      clock is read, the tick classified and, if live, five seconds added. */
  function PhaseAfter(r: Reader, line: string): Phase
    requires (r.lineCount + 1) % 10 == 1 ==> HasTimestamp(line)
  {
    if (r.lineCount + 1) % 10 == 1 then
      var currSeconds := GetCurrentSeconds(line);
      if currSeconds <= r.prevSeconds + ContinuitySeconds then
        Phase(currSeconds, r.totalTimeInSeconds + TickSeconds, false)
      else Phase(currSeconds, r.totalTimeInSeconds, true)
    else Phase(r.prevSeconds, r.totalTimeInSeconds, r.setupPhase)
  }

  /** What one more line needs not to panic. */
  predicate ReadyFor(r: Reader, line: string) {
    |r.players| == SlotCount && |r.prevLines| == SlotCount && IsStatLine(line) &&
    ((r.lineCount + 1) % 10 == 1 ==> HasTimestamp(line)) &&
    (r.lineCount + 1 > SlotCount && !PhaseAfter(r, line).setupPhase ==>
      IsStatLine(r.prevLines[r.lineCount % 10]))
  }

  /** One pass of readFile's scanner loop. */
  function ReadLine(r: Reader, line: string): Reader
    requires ReadyFor(r, line)
  {
    var lineCount := r.lineCount + 1;
    var players := if lineCount <= SlotCount then GetPlayerNames(line, lineCount, r.players) else r.players;
    var ph := PhaseAfter(r, line);
    var slot := (lineCount - 1) % 10;
    var prevLines := if ph.setupPhase then r.prevLines[slot := line] else r.prevLines;
    if !ph.setupPhase && lineCount > SlotCount then
      var t := HeroTick(line, players, prevLines, slot);
      Reader(lineCount, ph.prevSeconds, ph.totalTimeInSeconds, ph.setupPhase, Store(players, t.0), t.1)
    else
      Reader(lineCount, ph.prevSeconds, ph.totalTimeInSeconds, ph.setupPhase, players, prevLines)
  }

  /** Every slot from 0 below bound has a stat line as its previous line. */
  predicate Filled(prevLines: seq<string>, bound: int)
    requires |prevLines| == SlotCount
  {
    forall i :: 0 <= i < SlotCount && i < bound ==> IsStatLine(prevLines[i])
  }

  /** The clock part of the invariant: after n lines the reader holds
      the clock of the tick of line n - 1 and that tick's phase. */
  predicate ClockInv(lines: seq<string>, n: nat, r: Reader)
    requires LinesOk(lines) && n <= |lines|
  {
    r.lineCount == n &&
    (n == 0 ==> r.prevSeconds == 0 && !r.setupPhase) &&
    (n > 0 ==> r.prevSeconds == HeaderSeconds(lines, (n - 1) / 10) &&
               r.setupPhase == !TickLive(lines, (n - 1) / 10))
  }

  /** The reader's state after the first n lines of the log: the slots
      carry the names of the first ten lines; the clock and phase are those
      of the latest tick; and the slots a setup tick has visited hold stat
      lines. */
  predicate Inv(lines: seq<string>, n: nat, r: Reader)
    requires LinesOk(lines) && n <= |lines|
  {
    ClockInv(lines, n, r) && |r.players| == SlotCount && |r.prevLines| == SlotCount &&
    (forall i :: 0 <= i < SlotCount ==> r.players[i].name == (if i < n then Fields(lines[i])[1] else "")) &&
    (forall i :: 0 <= i < SlotCount ==> r.prevLines[i] == "" || IsStatLine(r.prevLines[i])) &&
    (n > 0 && !TickLive(lines, 0) ==> Filled(r.prevLines, n)) &&
    (n > 10 && !TickLive(lines, 1) ==> Filled(r.prevLines, n - 10))
  }

  /** Writing a stat line into a previous-line slot keeps every slot a
      stat line or empty, keeps filled prefixes filled, and extends the
      filled prefix ending at that slot. */
  lemma {:induction false} StoreLineKeepsSlots(prevLines: seq<string>, slot: nat, line: string, bound: int)
    requires |prevLines| == SlotCount && slot < SlotCount && IsStatLine(line)
    requires forall i :: 0 <= i < SlotCount ==> prevLines[i] == "" || IsStatLine(prevLines[i])
    ensures var u := prevLines[slot := line];
      (forall i :: 0 <= i < SlotCount ==> u[i] == "" || IsStatLine(u[i])) &&
      (Filled(prevLines, bound) ==> Filled(u, bound)) &&
      (Filled(prevLines, slot) ==> Filled(u, slot + 1))
  {
  }

  /** HeroTick keeps the slot names and writes only this line into the
      previous lines. */
  lemma {:induction false} HeroTickShape(line: string, players: seq<PlayerStats>, prevLines: seq<string>, index: nat)
    requires HeroTickReady(line, players, prevLines, index)
    ensures var t := HeroTick(line, players, prevLines, index);
      Names(Store(players, t.0)) == Names(players) &&
      (t.1 == prevLines || t.1 == prevLines[index := line])
  {
  }

  /** What one line does to the reader: the count goes up, the phase
      variables are those PhaseAfter computes, the slot names stay or the
      line names its slot, and only this line's slot can change among the
      previous lines, always during setup. */
  lemma {:induction false} ReadLineEffect(r: Reader, line: string)
    requires ReadyFor(r, line)
    ensures var r' := ReadLine(r, line);
      var ph := PhaseAfter(r, line);
      var slot := r.lineCount % 10;
      r'.lineCount == r.lineCount + 1 &&
      r'.prevSeconds == ph.prevSeconds && r'.totalTimeInSeconds == ph.totalTimeInSeconds &&
      r'.setupPhase == ph.setupPhase &&
      |r'.players| == SlotCount &&
      (forall k :: 0 <= k < SlotCount ==>
        r'.players[k].name == if k == r.lineCount then Fields(line)[1] else r.players[k].name) &&
      (r'.prevLines == r.prevLines || r'.prevLines == r.prevLines[slot := line]) &&
      (ph.setupPhase ==> r'.prevLines == r.prevLines[slot := line])
  {
    var lineCount := r.lineCount + 1;
    var players := if lineCount <= SlotCount then GetPlayerNames(line, lineCount, r.players) else r.players;
    var ph := PhaseAfter(r, line);
    var slot := (lineCount - 1) % 10;
    var prevLines := if ph.setupPhase then r.prevLines[slot := line] else r.prevLines;
    assert forall k :: 0 <= k < SlotCount ==>
      players[k].name == if k == r.lineCount then Fields(line)[1] else r.players[k].name;
    if !ph.setupPhase && lineCount > SlotCount {
      HeroTickShape(line, players, prevLines, slot);
      var r' := ReadLine(r, line);
      assert Names(r'.players) == Names(players);
      assert forall k :: 0 <= k < SlotCount ==> r'.players[k].name == Names(r'.players)[k];
    }
  }

  /** Where line n sits among the ticks. */
  lemma TickOf(n: nat)
    ensures 10 * (n / 10) <= n < 10 * (n / 10) + 10
    ensures (n + 1) % 10 == 1 <==> n % 10 == 0
    ensures n % 10 == 0 && n > 0 ==> (n - 1) / 10 == n / 10 - 1
    ensures n % 10 != 0 ==> (n - 1) / 10 == n / 10
  {
  }

  /** Tick t starts at line 10 * t. */
  lemma TickStart(t: nat)
    ensures (10 * t) % 10 == 0 && (10 * t) / 10 == t
  {
  }

  /** A tick's first line sets the clock to its own timestamp and is setup
      exactly when that is over ten seconds past the previous clock. */
  lemma HeaderPhase(r: Reader, line: string)
    requires (r.lineCount + 1) % 10 == 1 && HasTimestamp(line)
    ensures PhaseAfter(r, line).prevSeconds == GetCurrentSeconds(line)
    ensures PhaseAfter(r, line).setupPhase == (GetCurrentSeconds(line) > r.prevSeconds + ContinuitySeconds)
  {
  }

  /** The first line of tick t reads that tick's clock and classifies it. */
  lemma {:induction false} PhaseAtHeader(lines: seq<string>, t: nat, r: Reader)
    requires LinesOk(lines) && 10 * t < |lines| && ClockInv(lines, 10 * t, r)
    ensures HasTimestamp(lines[10 * t])
    ensures PhaseAfter(r, lines[10 * t]).prevSeconds == HeaderSeconds(lines, t)
    ensures PhaseAfter(r, lines[10 * t]).setupPhase == !TickLive(lines, t)
  {
    TickStart(t);
    TickOf(10 * t);
    HeaderPhase(r, lines[10 * t]);
    if t > 0 {
      assert r.prevSeconds == HeaderSeconds(lines, t - 1);
    }
  }

  /** The phase after line n is that of tick n / 10. */
  lemma {:induction false} PhaseStep(lines: seq<string>, n: nat, r: Reader)
    requires LinesOk(lines) && n < |lines| && ClockInv(lines, n, r)
    ensures (r.lineCount + 1) % 10 == 1 ==> HasTimestamp(lines[n])
    ensures PhaseAfter(r, lines[n]).prevSeconds == HeaderSeconds(lines, n / 10)
    ensures PhaseAfter(r, lines[n]).setupPhase == !TickLive(lines, n / 10)
  {
    TickOf(n);
    if n % 10 == 0 {
      assert n == 10 * (n / 10);
      PhaseAtHeader(lines, n / 10, r);
    }
  }

  /** Line n adds five seconds exactly when it is the first line of a
      live tick. */
  lemma {:induction false} PhaseTime(lines: seq<string>, n: nat, r: Reader)
    requires LinesOk(lines) && n < |lines| && ClockInv(lines, n, r)
    ensures (r.lineCount + 1) % 10 == 1 ==> HasTimestamp(lines[n])
    ensures PhaseAfter(r, lines[n]).totalTimeInSeconds ==
      r.totalTimeInSeconds + (if n % 10 == 0 && TickLive(lines, n / 10) then TickSeconds else 0)
  {
    TickOf(n);
    if n % 10 == 0 {
      var t := n / 10;
      assert HasTimestamp(lines[n]);
      assert lines[n] == lines[10 * t];
      if n > 0 {
        assert r.prevSeconds == HeaderSeconds(lines, t - 1);
      }
    }
  }

  /** A live tick past the first, when the second tick is setup, is the
      third or later. */
  lemma LaterLiveTick(lines: seq<string>, t: nat)
    requires LinesOk(lines) && 10 * t < |lines| && t >= 1
    requires TickLive(lines, t) && (10 < |lines| && !TickLive(lines, 1))
    ensures t >= 2
  {
  }

  /** A live line after the first ten finds its slot's previous line filled. */
  lemma {:induction false} SlotReady(lines: seq<string>, n: nat, r: Reader)
    requires LinesOk(lines) && EarlyTickSetup(lines) && n < |lines| && Inv(lines, n, r)
    ensures ReadyFor(r, lines[n])
  {
    PhaseStep(lines, n, r);
    var ph := PhaseAfter(r, lines[n]);
    if n + 1 > SlotCount && !ph.setupPhase {
      if !TickLive(lines, 0) {
        assert Filled(r.prevLines, n);
      } else {
        assert !TickLive(lines, 1);
        TickOf(n);
        LaterLiveTick(lines, n / 10);
        assert Filled(r.prevLines, n - 10);
      }
      assert IsStatLine(r.prevLines[n % 10]);
    }
    assert IsStatLine(lines[n]);
  }

  /** One more line keeps the invariant, and the line can be read. */
  lemma {:induction false} ReadLineInv(lines: seq<string>, n: nat, r: Reader)
    requires LinesOk(lines) && EarlyTickSetup(lines) && n < |lines|
    requires Inv(lines, n, r)
    ensures ReadyFor(r, lines[n])
    ensures Inv(lines, n + 1, ReadLine(r, lines[n]))
  {
    var line := lines[n];
    SlotReady(lines, n, r);
    PhaseStep(lines, n, r);
    ReadLineEffect(r, line);
    var ph := PhaseAfter(r, line);
    var r' := ReadLine(r, line);
    var slot := n % 10;
    assert IsStatLine(line);
    StoreLineKeepsSlots(r.prevLines, slot, line, n);
    StoreLineKeepsSlots(r.prevLines, slot, line, n - 10);
    assert n / 10 == (n + 1 - 1) / 10;
    assert forall i :: 0 <= i < SlotCount ==> r'.players[i].name == (if i < n + 1 then Fields(lines[i])[1] else "");
    if !TickLive(lines, 0) && n < 10 {
      assert n / 10 == 0 && ph.setupPhase;
      assert Filled(r.prevLines, slot);
    }
    if n + 1 > 10 && !TickLive(lines, 1) && n < 20 {
      assert n / 10 == 1 && ph.setupPhase;
      assert Filled(r.prevLines, n - 10);
    }
  }

  /** The reader before any line satisfies the invariant. */
  lemma {:induction false} InitialInv(lines: seq<string>)
    requires LinesOk(lines)
    ensures Inv(lines, 0, Initial)
  {
  }

  /** readFile's loop variables after the first n lines. */
  function ReadPrefix(lines: seq<string>, n: nat): (r: Reader)
    requires LinesOk(lines) && EarlyTickSetup(lines) && n <= |lines|
    ensures Inv(lines, n, r)
    decreases n
  {
    if n == 0 then
      InitialInv(lines);
      Initial
    else
      var prev := ReadPrefix(lines, n - 1);
      ReadLineInv(lines, n - 1, prev);
      ReadLine(prev, lines[n - 1])
  }

  /** The total playtime after n lines is five seconds for every live
      tick those lines have begun; setup ticks add nothing. */
  lemma {:induction false} TotalTimeCountsLiveTicks(lines: seq<string>, n: nat)
    requires LinesOk(lines) && EarlyTickSetup(lines) && n <= |lines|
    ensures ReadPrefix(lines, n).totalTimeInSeconds == TickSeconds * LiveHeaders(lines, n)
  {
    var totals := seq(|lines| + 1, m requires 0 <= m <= |lines| => ReadPrefix(lines, m).totalTimeInSeconds);
    forall m | 0 <= m < |lines|
      ensures StepAdds(lines, totals, m)
    {
      PrefixTime(lines, m);
    }
    CountLiveSteps(lines, totals, n);
  }

  /** Line m moves the running total by five seconds exactly when it is
      the first line of a live tick. */
  predicate StepAdds(lines: seq<string>, totals: seq<int>, m: nat)
    requires LinesOk(lines) && m < |lines| && |totals| == |lines| + 1
  {
    totals[m + 1] == totals[m] + (if m % 10 == 0 && TickLive(lines, m / 10) then TickSeconds else 0)
  }

  /** A running total that grows by five seconds at each live header and
      starts at 0 is five seconds per live header counted so far. */
  lemma {:induction false} CountLiveSteps(lines: seq<string>, totals: seq<int>, n: nat)
    requires LinesOk(lines) && |totals| == |lines| + 1 && totals[0] == 0 && n <= |lines|
    requires forall m :: 0 <= m < |lines| ==> StepAdds(lines, totals, m)
    ensures totals[n] == TickSeconds * LiveHeaders(lines, n)
    decreases n
  {
    if n > 0 {
      CountLiveSteps(lines, totals, n - 1);
      var live := (n - 1) % 10 == 0 && TickLive(lines, (n - 1) / 10);
      assert StepAdds(lines, totals, n - 1);
      LiveStep(totals[n - 1], totals[n], LiveHeaders(lines, n - 1), LiveHeaders(lines, n), live);
    }
  }

  /** The arithmetic of one step: five more seconds for one more live
      header, nothing for none. */
  lemma LiveStep(total: int, total': int, count: nat, count': nat, live: bool)
    requires total == TickSeconds * count
    requires total' == total + (if live then TickSeconds else 0)
    requires count' == count + (if live then 1 else 0)
    ensures total' == TickSeconds * count'
  {
  }

  /** Line n adds five seconds to the total after n lines exactly when it
      is the first line of a live tick. */
  lemma {:induction false} PrefixTime(lines: seq<string>, n: nat)
    requires LinesOk(lines) && EarlyTickSetup(lines) && n < |lines|
    ensures ReadPrefix(lines, n + 1).totalTimeInSeconds ==
      ReadPrefix(lines, n).totalTimeInSeconds + (if n % 10 == 0 && TickLive(lines, n / 10) then TickSeconds else 0)
  {
    ReadPrefixStep(lines, n);
    ReadLineTime(lines, n, ReadPrefix(lines, n));
  }

  /** Line n adds five seconds to the reader's total exactly when it is
      the first line of a live tick. */
  lemma {:induction false} ReadLineTime(lines: seq<string>, n: nat, r: Reader)
    requires LinesOk(lines) && EarlyTickSetup(lines) && n < |lines| && Inv(lines, n, r)
    ensures ReadyFor(r, lines[n])
    ensures ReadLine(r, lines[n]).totalTimeInSeconds ==
      r.totalTimeInSeconds + (if n % 10 == 0 && TickLive(lines, n / 10) then TickSeconds else 0)
  {
    SlotReady(lines, n, r);
    ReadLineEffect(r, lines[n]);
    PhaseTime(lines, n, r);
  }

  /** A log whose first tick is setup and whose every later tick is
      within ten seconds of the one before counts every tick but the
      first: after n lines, one tick for each ten lines past the first. */
  lemma {:induction false} CleanLogTime(lines: seq<string>, n: nat)
    requires LinesOk(lines) && 1 <= n <= |lines|
    requires !TickLive(lines, 0)
    requires forall t :: 1 <= t && 10 * t < |lines| ==> TickLive(lines, t)
    ensures LiveHeaders(lines, n) == (n - 1) / 10
    decreases n
  {
    if n > 1 {
      CleanLogTime(lines, n - 1);
      TickOf(n - 1);
    }
  }

  /** A live line after the first ten: the record getHeroStats returns
      goes back into the line's player's slot and nowhere else, and the
      previous lines are those getHeroStats returns. With distinct slot
      names, a line naming nobody changes no player and no previous line. */
  lemma {:induction false} LiveLineUpdate(r: Reader, line: string)
    requires ReadyFor(r, line) && r.lineCount >= SlotCount && !PhaseAfter(r, line).setupPhase
    ensures var r' := ReadLine(r, line);
      var t := HeroTick(line, r.players, r.prevLines, r.lineCount % 10);
      var i := FirstNamed(r.players, Fields(line)[1]);
      (i >= 0 ==> r'.players == r.players[i := t.0] && r'.prevLines == t.1) &&
      (i < 0 && NamesDistinct(r.players) ==> r'.players == r.players && r'.prevLines == r.prevLines)
  {
    var slot := r.lineCount % 10;
    var name := Fields(line)[1];
    var i := FirstNamed(r.players, name);
    var t := HeroTick(line, r.players, r.prevLines, slot);
    if i >= 0 {
      assert t.0.name == name;
      assert FirstNamed(r.players, t.0.name) == i;
    } else if NamesDistinct(r.players) {
      assert t.0 == r.players[SlotCount - 1];
      assert forall k :: 0 <= k < SlotCount - 1 ==> Names(r.players)[k] != t.0.name;
      assert t.0.name !in Names(r.players)[..SlotCount - 1];
      FindIndexUnique(Names(r.players), t.0.name, SlotCount - 1);
      assert r.players[SlotCount - 1 := t.0] == r.players;
    }
  }

  // ---------------------------------------------------------------------
  // The end of the match

  /** A record with the match totals, team and duration of a final line;
      name and heroes are kept. */
  function FinalRecord(p: PlayerStats, line: string, timePlayed: int): PlayerStats
    requires IsStatLine(line)
  {
    p.(stats := StringStatsToFloatStats(Fields(line)), team := Fields(line)[13], durationInSeconds := timePlayed)
  }

  /** getEndOfGamePlayerStats: the first slot with the line's name, with
      the line's totals and team and the match's playtime; for a name no
      slot holds, the last slot's record as it is. */
  function GetEndOfGamePlayerStats(line: string, players: seq<PlayerStats>, timePlayed: int): (p: PlayerStats)
    requires |players| == SlotCount && IsStatLine(line)
    ensures p.name in Names(players)
  {
    var i := FirstNamed(players, Fields(line)[1]);
    if i >= 0 then FinalRecord(players[i], line, timePlayed) else players[SlotCount - 1]
  }

  /** readFile's write-back at the end: into every slot holding the
      record's name (no break). */
  function Spread(players: seq<PlayerStats>, p: PlayerStats): (r: seq<PlayerStats>)
    ensures |r| == |players|
    ensures forall k :: 0 <= k < |r| ==> r[k] == if players[k].name == p.name then p else players[k]
  {
    seq(|players|, k requires 0 <= k < |players| => if players[k].name == p.name then p else players[k])
  }

  /** Every line of a sequence is a stat line. */
  predicate AllStatLines(tail: seq<string>) {
    forall n :: 0 <= n < |tail| ==> IsStatLine(tail[n])
  }

  /** The end-of-match pass over the final lines, in order. */
  function FinishLines(tail: seq<string>, players: seq<PlayerStats>, timePlayed: int): (r: seq<PlayerStats>)
    requires |players| == SlotCount && AllStatLines(tail)
    ensures Names(r) == Names(players)
    decreases |tail|
  {
    if |tail| == 0 then players
    else
      var ps := FinishLines(tail[..|tail| - 1], players, timePlayed);
      var p := GetEndOfGamePlayerStats(tail[|tail| - 1], ps, timePlayed);
      var r := Spread(ps, p);
      assert forall k :: 0 <= k < |r| ==> Names(r)[k] == Names(ps)[k];
      r
  }

  /** The last of the lines that names a player, or -1. */
  function LastNaming(tail: seq<string>, name: string): (m: int)
    requires AllStatLines(tail)
    ensures -1 <= m < |tail|
    ensures m >= 0 ==> Fields(tail[m])[1] == name
    ensures forall n :: m < n < |tail| ==> Fields(tail[n])[1] != name
    decreases |tail|
  {
    if |tail| == 0 then -1
    else if Fields(tail[|tail| - 1])[1] == name then |tail| - 1
    else LastNaming(tail[..|tail| - 1], name)
  }

  /** A final line naming no slot, with distinct slot names, changes no
      player. */
  lemma {:induction false} UnmatchedFinalLine(line: string, players: seq<PlayerStats>, timePlayed: int)
    requires |players| == SlotCount && IsStatLine(line) && NamesDistinct(players)
    requires FirstNamed(players, Fields(line)[1]) < 0
    ensures Spread(players, GetEndOfGamePlayerStats(line, players, timePlayed)) == players
  {
    var r := Spread(players, GetEndOfGamePlayerStats(line, players, timePlayed));
    assert forall k :: 0 <= k < SlotCount ==> r[k] == players[k];
  }

  /** A later final line overrides an earlier one's totals, team and
      duration entirely. */
  lemma FinalRecordOverrides(p: PlayerStats, a: string, b: string, t: int, t': int)
    requires IsStatLine(a) && IsStatLine(b)
    ensures FinalRecord(FinalRecord(p, a, t), b, t') == FinalRecord(p, b, t')
  {
  }

  /** One more final line: with distinct slot names, exactly the slot
      holding the line's name takes the line's totals. */
  lemma FinishStep(tail: seq<string>, players: seq<PlayerStats>, timePlayed: int, k: nat)
    requires |players| == SlotCount && NamesDistinct(players) && AllStatLines(tail)
    requires |tail| > 0 && k < SlotCount
    ensures AllStatLines(tail[..|tail| - 1])
    ensures var ps := FinishLines(tail[..|tail| - 1], players, timePlayed);
      var last := tail[|tail| - 1];
      FinishLines(tail, players, timePlayed)[k] ==
        if players[k].name == Fields(last)[1] then FinalRecord(ps[k], last, timePlayed) else ps[k]
  {
    var init := tail[..|tail| - 1];
    var last := tail[|tail| - 1];
    assert AllStatLines(init);
    var ps := FinishLines(init, players, timePlayed);
    assert forall j :: 0 <= j < SlotCount ==> ps[j].name == players[j].name by {
      assert forall j :: 0 <= j < SlotCount ==> Names(ps)[j] == Names(players)[j];
    }
    var i := FirstNamed(ps, Fields(last)[1]);
    if players[k].name == Fields(last)[1] {
      assert Names(ps)[k] == players[k].name;
      assert i == k by {
        assert ps[i].name == players[k].name;
      }
    } else if i < 0 {
      assert ps[k].name == ps[SlotCount - 1].name ==> k == SlotCount - 1;
    } else {
      assert ps[i].name == Fields(last)[1];
    }
  }

  /** After the end-of-match pass each slot holds, verbatim, the totals
      and team of the last final line naming it and the match's playtime,
      with its name and heroes kept; a slot no final line names is as it
      was. */
  lemma {:induction false} FinalTotals(tail: seq<string>, players: seq<PlayerStats>, timePlayed: int)
    requires |players| == SlotCount && NamesDistinct(players) && AllStatLines(tail)
    ensures forall k :: 0 <= k < SlotCount ==>
      FinishLines(tail, players, timePlayed)[k] ==
        (if LastNaming(tail, players[k].name) < 0 then players[k]
         else FinalRecord(players[k], tail[LastNaming(tail, players[k].name)], timePlayed))
    decreases |tail|
  {
    if |tail| > 0 {
      var init := tail[..|tail| - 1];
      var last := tail[|tail| - 1];
      assert AllStatLines(init);
      FinalTotals(init, players, timePlayed);
      forall k | 0 <= k < SlotCount
        ensures FinishLines(tail, players, timePlayed)[k] ==
          (if LastNaming(tail, players[k].name) < 0 then players[k]
           else FinalRecord(players[k], tail[LastNaming(tail, players[k].name)], timePlayed))
      {
        FinishStep(tail, players, timePlayed, k);
        var name := players[k].name;
        var m := LastNaming(init, name);
        if name == Fields(last)[1] {
          assert LastNaming(tail, name) == |tail| - 1;
          if m >= 0 {
            FinalRecordOverrides(players[k], init[m], last, timePlayed, timePlayed);
          }
        } else {
          assert LastNaming(tail, name) == m;
          assert m >= 0 ==> tail[m] == init[m];
        }
      }
    }
  }

  /** The slots' names are those of the first ten lines, distinct when
      those ten lines name distinct players. */
  predicate DistinctRoster(lines: seq<string>)
    requires |lines| >= SlotCount && LinesOk(lines)
  {
    forall a, b :: 0 <= a < b < SlotCount ==> Fields(lines[a])[1] != Fields(lines[b])[1]
  }

  /** The end-of-match pass field by field: names and heroes are kept,
      and a slot some final line names takes that last line's totals and
      team and the given playtime. */
  lemma {:induction false} FinalFields(tail: seq<string>, players: seq<PlayerStats>, timePlayed: int)
    requires |players| == SlotCount && NamesDistinct(players) && AllStatLines(tail)
    ensures var r := FinishLines(tail, players, timePlayed);
      forall k :: 0 <= k < SlotCount ==>
        r[k].name == players[k].name && r[k].heroes == players[k].heroes &&
        (LastNaming(tail, players[k].name) >= 0 ==>
          r[k].stats == StringStatsToFloatStats(Fields(tail[LastNaming(tail, players[k].name)])) &&
          r[k].team == Fields(tail[LastNaming(tail, players[k].name)])[13] &&
          r[k].durationInSeconds == timePlayed)
  {
    FinalTotals(tail, players, timePlayed);
  }

  /** What readFile returns, slot by slot, for a log whose first ten lines
      name ten distinct players: slot k is the player named by line k; its
      heroes are those the live ticks credited; and if one of the final ten
      lines names it, its totals and team are the last such line's columns
      verbatim and its duration is five seconds per live tick. */
  lemma {:induction false} ReadFileTotals(lines: seq<string>)
    requires MatchLogOk(lines) && DistinctRoster(lines)
    ensures var r := ReadPrefix(lines, |lines|);
      var tail := lines[|lines| - SlotCount..];
      AllStatLines(tail) &&
      var players := FinishLines(tail, r.players, r.totalTimeInSeconds);
      forall k :: 0 <= k < SlotCount ==>
        players[k].name == Fields(lines[k])[1] && players[k].heroes == r.players[k].heroes &&
        (LastNaming(tail, players[k].name) >= 0 ==>
          players[k].stats == StringStatsToFloatStats(Fields(tail[LastNaming(tail, players[k].name)])) &&
          players[k].team == Fields(tail[LastNaming(tail, players[k].name)])[13] &&
          players[k].durationInSeconds == TickSeconds * LiveHeaders(lines, |lines|))
  {
    var r := ReadPrefix(lines, |lines|);
    var tail := lines[|lines| - SlotCount..];
    assert AllStatLines(tail);
    TotalTimeCountsLiveTicks(lines, |lines|);
    RosterNames(lines, r);
    FinalFields(tail, r.players, r.totalTimeInSeconds);
  }

  /** After every line the slots carry the names of the first ten lines,
      distinct when those are. */
  lemma {:induction false} RosterNames(lines: seq<string>, r: Reader)
    requires MatchLogOk(lines) && Inv(lines, |lines|, r)
    ensures forall k :: 0 <= k < SlotCount ==> r.players[k].name == Fields(lines[k])[1]
    ensures DistinctRoster(lines) ==> NamesDistinct(r.players)
  {
  }

  // ---------------------------------------------------------------------
  // The imperative reader

  /** The match record readFile fills in: only the playtime is set here. */
  datatype Map = Map(name: string, winner: string, totalTimeInSeconds: int, matchID: int)

  /** getHeroStats, as the source's search loops: the first slot with the
      line's name is credited; the hero search stops at the first entry
      for the hero. */
  method GetHeroStats(line: string, players: seq<PlayerStats>, prevLines: seq<string>, index: nat)
    returns (player: PlayerStats, updatedPrevLines: seq<string>)
    requires HeroTickReady(line, players, prevLines, index)
    ensures (player, updatedPrevLines) == HeroTick(line, players, prevLines, index)
  {
    var stats := Fields(line);
    var playerName := stats[1];
    var hero := stats[2];
    player := EmptyPlayer;
    updatedPrevLines := prevLines;
    var i := 0;
    while i < |players|
      invariant 0 <= i <= |players|
      invariant playerName !in Names(players)[..i]
      invariant i > 0 ==> player == players[i - 1]
    {
      player := players[i];
      if player.name == playerName {
        FindIndexUnique(Names(players), playerName, i);
        var delta := SubtractStats(line, prevLines[index]);
        player := CreditHeroLoop(player, hero, delta);
        updatedPrevLines := prevLines[index := line];
        return;
      }
      assert Names(players)[..i + 1] == Names(players)[..i] + [players[i].name];
      i := i + 1;
    }
  }

  /** The hero loop of getHeroStats: five seconds and the delta to the
      first entry for the hero (then break), or a fresh entry appended. */
  method CreditHeroLoop(p: PlayerStats, hero: string, delta: StatLine) returns (q: PlayerStats)
    ensures q == CreditHero(p, hero, delta)
  {
    q := p;
    var found := false;
    var j := 0;
    while j < |q.heroes|
      invariant 0 <= j <= |q.heroes|
      invariant q == p
      invariant hero !in HeroNames(p.heroes)[..j]
    {
      if q.heroes[j].hero == hero {
        FindIndexUnique(HeroNames(p.heroes), hero, j);
        var h := q.heroes[j].(timeSpentInSeconds := q.heroes[j].timeSpentInSeconds + TickSeconds);
        q := q.(heroes := q.heroes[j := AddHeroStats(h, delta)]);
        return;
      }
      assert HeroNames(p.heroes)[..j + 1] == HeroNames(p.heroes)[..j] + [p.heroes[j].hero];
      j := j + 1;
    }
    assert HeroNames(p.heroes)[..j] == HeroNames(p.heroes);
    q := q.(heroes := q.heroes + [HeroStats(hero, 0, Zero)]);
  }

  /** readFile's write-back after getHeroStats: into the first slot with
      the record's name, then break. */
  method StorePlayer(players: array<PlayerStats>, p: PlayerStats)
    modifies players
    ensures players[..] == Store(old(players[..]), p)
  {
    ghost var before := players[..];
    var j := 0;
    while j < players.Length
      invariant 0 <= j <= players.Length
      invariant players[..] == before
      invariant p.name !in Names(before)[..j]
    {
      if players[j].name == p.name {
        FindIndexUnique(Names(before), p.name, j);
        players[j] := p;
        return;
      }
      assert Names(before)[..j + 1] == Names(before)[..j] + [before[j].name];
      j := j + 1;
    }
    assert Names(before)[..j] == Names(before);
  }

  /** readFile's write-back at the end of the match: into every slot with
      the record's name. */
  method SpreadPlayer(players: array<PlayerStats>, p: PlayerStats)
    modifies players
    ensures players[..] == Spread(old(players[..]), p)
  {
    ghost var before := players[..];
    var j := 0;
    while j < players.Length
      invariant 0 <= j <= players.Length
      invariant forall k :: 0 <= k < j ==> players[k] == if before[k].name == p.name then p else before[k]
      invariant forall k :: j <= k < players.Length ==> players[k] == before[k]
    {
      if players[j].name == p.name {
        players[j] := p;
      }
      j := j + 1;
    }
  }

  /** getEndOfGamePlayerStats, as the source's search loop: the first slot
      with the line's name is returned updated; with no such slot the loop
      variable is left holding the last slot. */
  method EndOfGameLoop(line: string, players: seq<PlayerStats>, timePlayed: int) returns (player: PlayerStats)
    requires |players| == SlotCount && IsStatLine(line)
    ensures player == GetEndOfGamePlayerStats(line, players, timePlayed)
  {
    var stats := Fields(line);
    var playerName := stats[1];
    player := EmptyPlayer;
    var i := 0;
    while i < |players|
      invariant 0 <= i <= |players|
      invariant playerName !in Names(players)[..i]
      invariant i > 0 ==> player == players[i - 1]
    {
      player := players[i];
      if player.name == playerName {
        FindIndexUnique(Names(players), playerName, i);
        player := player.(stats := StringStatsToFloatStats(stats), team := stats[13], durationInSeconds := timePlayed);
        return;
      }
      assert Names(players)[..i + 1] == Names(players)[..i] + [players[i].name];
      i := i + 1;
    }
  }

  /** One pass of readFile's scanner loop on the loop variables and the
      two buffers: exactly what ReadLine computes. */
  method ScanLine(line: string, players: array<PlayerStats>, prevLines: array<string>,
                  lineCount: nat, prevSeconds: int, totalTimeInSeconds: int, setupPhase: bool, ghost r: Reader)
    returns (lineCount': nat, prevSeconds': int, totalTimeInSeconds': int, setupPhase': bool)
    requires r == Reader(lineCount, prevSeconds, totalTimeInSeconds, setupPhase, players[..], prevLines[..])
    requires ReadyFor(r, line)
    modifies players, prevLines
    ensures Reader(lineCount', prevSeconds', totalTimeInSeconds', setupPhase', players[..], prevLines[..]) == ReadLine(r, line)
  {
    lineCount' := lineCount + 1;
    if lineCount' <= SlotCount {
      players[lineCount' - 1] := players[lineCount' - 1].(name := Fields(line)[1]);
    }
    assert players[..] == if lineCount' <= SlotCount then GetPlayerNames(line, lineCount', r.players) else r.players;
    prevSeconds', totalTimeInSeconds', setupPhase' := prevSeconds, totalTimeInSeconds, setupPhase;
    if lineCount' % 10 == 1 {
      var currSeconds := GetCurrentSeconds(line);
      if currSeconds <= prevSeconds + ContinuitySeconds {
        totalTimeInSeconds' := totalTimeInSeconds + TickSeconds;
        setupPhase' := false;
      } else {
        setupPhase' := true;
      }
      prevSeconds' := currSeconds;
    }
    assert PhaseAfter(r, line) == Phase(prevSeconds', totalTimeInSeconds', setupPhase');
    if setupPhase' {
      prevLines[(lineCount' - 1) % 10] := line;
    }
    if !setupPhase' && lineCount' > SlotCount {
      LiveLine(line, players, prevLines, (lineCount' - 1) % 10);
    }
    ghost var r' := ReadLine(r, line);
    assert r'.lineCount == lineCount' && r'.prevSeconds == prevSeconds' &&
      r'.totalTimeInSeconds == totalTimeInSeconds' && r'.setupPhase == setupPhase' &&
      r'.players == players[..] && r'.prevLines == prevLines[..];
  }

  /** The live-line step of readFile's loop: getHeroStats, the write-back
      of the player into its slot, and the copy of the returned previous
      lines into the buffer. */
  method LiveLine(line: string, players: array<PlayerStats>, prevLines: array<string>, slot: nat)
    requires players.Length == SlotCount && prevLines.Length == SlotCount
    requires HeroTickReady(line, players[..], prevLines[..], slot)
    modifies players, prevLines
    ensures var t := HeroTick(line, old(players[..]), old(prevLines[..]), slot);
      players[..] == Store(old(players[..]), t.0) && prevLines[..] == t.1
  {
    var playerStats, updatedPrevLines := GetHeroStats(line, players[..], prevLines[..], slot);
    StorePlayer(players, playerStats);
    forall k | 0 <= k < SlotCount {
      prevLines[k] := updatedPrevLines[k];
    }
    assert prevLines[..] == updatedPrevLines;
  }

  /** One more line takes the reader after n lines to the reader after
      n + 1, and that line can be read. */
  lemma {:induction false} ReadPrefixStep(lines: seq<string>, n: nat)
    requires LinesOk(lines) && EarlyTickSetup(lines) && n < |lines|
    ensures ReadyFor(ReadPrefix(lines, n), lines[n])
    ensures ReadPrefix(lines, n + 1) == ReadLine(ReadPrefix(lines, n), lines[n])
  {
    ReadLineInv(lines, n, ReadPrefix(lines, n));
  }

  /** readFile's scanner loop over every line, on fresh buffers: the
      buffers end as the reader's state after all lines, and the playtime
      is returned. */
  method ScanLines(lines: seq<string>, players: array<PlayerStats>, prevLines: array<string>)
    returns (totalTimeInSeconds: int)
    requires LinesOk(lines) && EarlyTickSetup(lines)
    requires players[..] == Initial.players && prevLines[..] == Initial.prevLines
    modifies players, prevLines
    ensures var r := ReadPrefix(lines, |lines|);
      players[..] == r.players && prevLines[..] == r.prevLines && totalTimeInSeconds == r.totalTimeInSeconds
  {
    var prevSeconds := 0;
    totalTimeInSeconds := 0;
    var lineCount := 0;
    var setupPhase := false;
    var n := 0;
    ghost var r := Initial;
    while n < |lines|
      invariant 0 <= n <= |lines|
      invariant r == ReadPrefix(lines, n)
      invariant r == Reader(lineCount, prevSeconds, totalTimeInSeconds, setupPhase, players[..], prevLines[..])
    {
      ReadPrefixStep(lines, n);
      lineCount, prevSeconds, totalTimeInSeconds, setupPhase :=
        ScanLine(lines[n], players, prevLines, lineCount, prevSeconds, totalTimeInSeconds, setupPhase, r);
      r := ReadPrefix(lines, n + 1);
      n := n + 1;
    }
  }

  /** readFile's end-of-match pass over the final lines, in order. */
  method FinishMatch(tail: seq<string>, players: array<PlayerStats>, timePlayed: int)
    requires players.Length == SlotCount && AllStatLines(tail)
    modifies players
    ensures players[..] == FinishLines(tail, old(players[..]), timePlayed)
  {
    ghost var before := players[..];
    var i := 0;
    while i < |tail|
      invariant 0 <= i <= |tail|
      invariant players[..] == FinishLines(tail[..i], before, timePlayed)
    {
      var playerStats := EndOfGameLoop(tail[i], players[..], timePlayed);
      assert tail[..i + 1][..i] == tail[..i];
      SpreadPlayer(players, playerStats);
      i := i + 1;
    }
    assert tail[..i] == tail;
  }

  /** readFile over the lines of a log: the scanner loop with its phase
      variables and the two fixed-size buffers, then the end-of-match pass
      over the last ten lines. The result is the reader's state after all
      lines followed by the end-of-match pass, and the match playtime is
      five seconds per live tick. */
  method ReadFile(lines: seq<string>) returns (players: seq<PlayerStats>, playedMap: Map)
    requires MatchLogOk(lines)
    ensures var r := ReadPrefix(lines, |lines|);
      players == FinishLines(lines[|lines| - SlotCount..], r.players, r.totalTimeInSeconds)
    ensures playedMap == Map("", "", TickSeconds * LiveHeaders(lines, |lines|), 0)
    ensures DistinctRoster(lines) ==> forall k :: 0 <= k < SlotCount ==>
      players[k].name == Fields(lines[k])[1] &&
      var tail := lines[|lines| - SlotCount..];
      (LastNaming(tail, players[k].name) >= 0 ==>
        players[k].stats == StringStatsToFloatStats(Fields(tail[LastNaming(tail, players[k].name)])) &&
        players[k].team == Fields(tail[LastNaming(tail, players[k].name)])[13] &&
        players[k].durationInSeconds == playedMap.totalTimeInSeconds)
  {
    var ps := new PlayerStats[SlotCount](_ => EmptyPlayer);
    var prevLines := new string[SlotCount](_ => "");
    assert ps[..] == Initial.players && prevLines[..] == Initial.prevLines;
    var totalTimeInSeconds := ScanLines(lines, ps, prevLines);
    TotalTimeCountsLiveTicks(lines, |lines|);
    var tail := lines[|lines| - SlotCount..];
    assert AllStatLines(tail);
    FinishMatch(tail, ps, totalTimeInSeconds);
    players := ps[..];
    playedMap := Map("", "", totalTimeInSeconds, 0);
    if DistinctRoster(lines) {
      ReadFileTotals(lines);
    }
  }
}
