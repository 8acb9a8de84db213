/** The records the match engine produces (types.go) and the pure
    arithmetic on them: field-wise sums and differences of the ten stat
    categories, the per-10-minute normalisation and the playtime gates of
    the leaderboards. Go's float64 is modelled as real. */
module Stats {

  /** Seconds one reporting tick stands for. */
  const TickSeconds: int := 5
  /** The per-10-minute basis of every normalised rate. */
  const RateBasisSeconds: int := 600
  /** Total playtime a player needs for the general leaderboard. */
  const GeneralPlaytimeSeconds: int := 1800
  /** Playtime on one hero a player needs for that hero's leaderboard. */
  const HeroPlaytimeSeconds: int := 600

  /** The ten stat categories, in the column order of the log and of the
      leaderboard files. */
  datatype StatLine = StatLine(
    damageDealt: real, damageTaken: real, deaths: real, finalBlows: real,
    eliminations: real, soloKills: real, healingDealt: real,
    environmentalKills: real, offensiveAssists: real, ultsUsed: real)

  /** One live player's running totals on one hero (HeroStats). */
  datatype HeroStats = HeroStats(hero: string, timeSpentInSeconds: int, stats: StatLine)

  /** One player's match totals and hero breakdown (PlayerStats). */
  datatype PlayerStats = PlayerStats(
    name: string, team: string, durationInSeconds: int,
    stats: StatLine, heroes: seq<HeroStats>)

  /** Category k of a stat line, k in 0..9 in column order. */
  function Stat(v: StatLine, k: nat): real
    requires k < 10
  {
    match k
    case 0 => v.damageDealt
    case 1 => v.damageTaken
    case 2 => v.deaths
    case 3 => v.finalBlows
    case 4 => v.eliminations
    case 5 => v.soloKills
    case 6 => v.healingDealt
    case 7 => v.environmentalKills
    case 8 => v.offensiveAssists
    case _ => v.ultsUsed
  }

  /** Two stat lines are equal exactly when all ten categories are. */
  lemma StatLineExt(a: StatLine, b: StatLine)
    requires forall k :: 0 <= k < 10 ==> Stat(a, k) == Stat(b, k)
    ensures a == b
  {
    assert Stat(a, 0) == Stat(b, 0) && Stat(a, 1) == Stat(b, 1);
    assert Stat(a, 2) == Stat(b, 2) && Stat(a, 3) == Stat(b, 3);
    assert Stat(a, 4) == Stat(b, 4) && Stat(a, 5) == Stat(b, 5);
    assert Stat(a, 6) == Stat(b, 6) && Stat(a, 7) == Stat(b, 7);
    assert Stat(a, 8) == Stat(b, 8) && Stat(a, 9) == Stat(b, 9);
  }

  /** All categories zero: Go's zero value. */
  const Zero: StatLine := StatLine(0.0, 0.0, 0.0, 0.0, 0.0, 0.0, 0.0, 0.0, 0.0, 0.0)

  /** Go's zero PlayerStats: the value of every slot before the log names it. */
  const EmptyPlayer: PlayerStats := PlayerStats("", "", 0, Zero, [])

  /** Category-wise sum. */
  function Add(a: StatLine, b: StatLine): (r: StatLine)
    ensures forall k :: 0 <= k < 10 ==> Stat(r, k) == Stat(a, k) + Stat(b, k)
  {
    StatLine(a.damageDealt + b.damageDealt, a.damageTaken + b.damageTaken,
             a.deaths + b.deaths, a.finalBlows + b.finalBlows,
             a.eliminations + b.eliminations, a.soloKills + b.soloKills,
             a.healingDealt + b.healingDealt, a.environmentalKills + b.environmentalKills,
             a.offensiveAssists + b.offensiveAssists, a.ultsUsed + b.ultsUsed)
  }

  /** Category-wise difference a - b (subtractStats, playerStatsDifference). */
  function Sub(a: StatLine, b: StatLine): (r: StatLine)
    ensures forall k :: 0 <= k < 10 ==> Stat(r, k) == Stat(a, k) - Stat(b, k)
  {
    StatLine(a.damageDealt - b.damageDealt, a.damageTaken - b.damageTaken,
             a.deaths - b.deaths, a.finalBlows - b.finalBlows,
             a.eliminations - b.eliminations, a.soloKills - b.soloKills,
             a.healingDealt - b.healingDealt, a.environmentalKills - b.environmentalKills,
             a.offensiveAssists - b.offensiveAssists, a.ultsUsed - b.ultsUsed)
  }

  /** Adding a difference back restores the minuend: Sub is the inverse of Add. */
  lemma AddSub(a: StatLine, b: StatLine)
    ensures Add(b, Sub(a, b)) == a
    ensures Sub(Add(b, a), b) == a
  {
    StatLineExt(Add(b, Sub(a, b)), a);
    StatLineExt(Sub(Add(b, a), b), a);
  }

  /** Consecutive deltas telescope: accumulating b - a and then c - b adds
      the same as accumulating c - a once. */
  lemma DeltasTelescope(h: StatLine, a: StatLine, b: StatLine, c: StatLine)
    ensures Add(Add(h, Sub(b, a)), Sub(c, b)) == Add(h, Sub(c, a))
  {
    StatLineExt(Add(Add(h, Sub(b, a)), Sub(c, b)), Add(h, Sub(c, a)));
  }

  /** addHeroStats: the tick's delta added to every category of the hero
      entry; the hero's name and time stay as they are. */
  function AddHeroStats(h: HeroStats, delta: StatLine): (r: HeroStats)
    ensures r.hero == h.hero && r.timeSpentInSeconds == h.timeSpentInSeconds
    ensures forall k :: 0 <= k < 10 ==> Stat(r.stats, k) == Stat(h.stats, k) + Stat(delta, k)
  {
    h.(stats := Add(h.stats, delta))
  }

  /** playerStatsDifference: how far the first player is ahead of the
      second in each category. */
  function PlayerStatsDifference(first: PlayerStats, second: PlayerStats): (d: StatLine)
    ensures Add(second.stats, d) == first.stats
    ensures forall k :: 0 <= k < 10 ==> Stat(d, k) == Stat(first.stats, k) - Stat(second.stats, k)
  {
    AddSub(first.stats, second.stats);
    Sub(first.stats, second.stats)
  }

  /** A total over a duration, expressed per 10 minutes of playtime:
      stat / duration * 600. */
  function Per10(stat: real, duration: int): (rate: real)
    requires duration > 0
    ensures rate * (duration as real) == stat * (RateBasisSeconds as real)
  {
    stat / (duration as real) * (RateBasisSeconds as real)
  }

  /** Normalisation is scale-invariant: multiplying both the total and the
      duration by the same factor leaves the rate as it was. */
  lemma Per10ScaleInvariant(stat: real, duration: int, factor: int)
    requires duration > 0 && factor > 0
    ensures Per10(stat * (factor as real), duration * factor) == Per10(stat, duration)
  {
    var d := duration as real;
    var f := factor as real;
    assert (duration * factor) as real == d * f;
    assert stat * f / (d * f) == stat / d;
  }

  /** Over exactly ten minutes the rate is the total itself, and rates are
      ordered as the totals are over a common duration. */
  lemma Per10Basis(stat: real, other: real, duration: int)
    requires duration > 0
    ensures Per10(stat, RateBasisSeconds) == stat
    ensures stat <= other ==> Per10(stat, duration) <= Per10(other, duration)
  {
    var d := duration as real;
    if stat <= other {
      assert stat / d <= other / d;
    }
  }

  /** calcStatsP10: every category of a player's totals replaced by its
      per-10-minute rate over the player's duration; name, team, duration
      and heroes are kept. */
  function CalcStatsP10(p: PlayerStats): (r: PlayerStats)
    requires p.durationInSeconds > 0
    ensures r.name == p.name && r.team == p.team
    ensures r.durationInSeconds == p.durationInSeconds && r.heroes == p.heroes
    ensures forall k :: 0 <= k < 10 ==> Stat(r.stats, k) == Per10(Stat(p.stats, k), p.durationInSeconds)
  {
    var d := p.durationInSeconds;
    var s := p.stats;
    p.(stats := StatLine(
      Per10(s.damageDealt, d), Per10(s.damageTaken, d), Per10(s.deaths, d),
      Per10(s.finalBlows, d), Per10(s.eliminations, d), Per10(s.soloKills, d),
      Per10(s.healingDealt, d), Per10(s.environmentalKills, d),
      Per10(s.offensiveAssists, d), Per10(s.ultsUsed, d)))
  }

  /** The result of a single-row database query: the value, or a failure
      (no row, a NULL sum, a connection error). */
  datatype Option<T> = None | Some(value: T)

  /** check30MinutesTotalPlaytime on the summed playtime the query read:
      eligible for the general leaderboard from 30 minutes on; a failed
      query makes the player ineligible. */
  predicate HasGeneralPlaytime(total: Option<int>) {
    total.Some? && total.value >= GeneralPlaytimeSeconds
  }

  /** check10MinutesHeroPlaytime on the hero playtime the query read:
      eligible for a hero leaderboard from 10 minutes on that hero. */
  predicate HasHeroPlaytime(onHero: Option<int>) {
    onHero.Some? && onHero.value >= HeroPlaytimeSeconds
  }

  /** The gates sit exactly at 1800 and 600 seconds, fail on a failed
      query, and never exclude a player who has played longer than an
      admitted one. */
  lemma PlaytimeGates(a: int, b: int)
    ensures !HasGeneralPlaytime(Some(1799)) && HasGeneralPlaytime(Some(1800))
    ensures !HasHeroPlaytime(Some(599)) && HasHeroPlaytime(Some(600))
    ensures !HasGeneralPlaytime(None) && !HasHeroPlaytime(None)
    ensures a <= b && HasGeneralPlaytime(Some(a)) ==> HasGeneralPlaytime(Some(b))
    ensures a <= b && HasHeroPlaytime(Some(a)) ==> HasHeroPlaytime(Some(b))
  {
  }
}
