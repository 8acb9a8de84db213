/** The fixed hero roster the hero leaderboards are built over, and the
    alias table that turns a user's spelling of a hero into a roster name
    (handleWeirdHeroNames). */
module Heroes {

  /** The roster, in the order of the hero leaderboard file. */
  const Roster: seq<string> := [
    "ana", "ashe", "baptiste", "bastion", "brigitte", "cassidy", "d.va", "doomfist",
    "echo", "genji", "hanzo", "illari", "junker queen", "junkrat", "juno", "kiriko",
    "lifeweaver", "lúcio", "mauga", "mei", "mercy", "moira", "orisa", "pharah",
    "ramattra", "reaper", "reinhardt", "roadhog", "sigma", "sojourn", "soldier: 76",
    "sombra", "symmetra", "torbjörn", "tracer", "venture", "widowmaker", "winston",
    "wrecking ball", "zarya", "zenyatta"]

  /** The spellings handleWeirdHeroNames rewrites. */
  const Aliases: set<string> := {
    "lucio",
    "jq", "queen", "junkerqueen", "junker",
    "dva", "d",
    "ball", "hammond", "wreckingball", "hamster", "wrecking",
    "torb", "torbjorn",
    "brig", "briggite", "briggitte",
    "soldier", "soldier:76", "soldier76", "soldier:"}

  /** handleWeirdHeroNames: the roster name an alias stands for; any other
      text is returned as it is. */
  function HandleWeirdHeroNames(hero: string): string {
    if hero == "lucio" then "lúcio"
    else if hero == "jq" || hero == "queen" || hero == "junkerqueen" || hero == "junker" then "junker queen"
    else if hero == "dva" || hero == "d" then "d.va"
    else if hero == "ball" || hero == "hammond" || hero == "wreckingball" || hero == "hamster" || hero == "wrecking" then "wrecking ball"
    else if hero == "torb" || hero == "torbjorn" then "torbjörn"
    else if hero == "brig" || hero == "briggite" || hero == "briggitte" then "brigitte"
    else if hero == "soldier" || hero == "soldier:76" || hero == "soldier76" || hero == "soldier:" then "soldier: 76"
    else hero
  }

  /** Every alias is rewritten to a roster name, and nothing else is
      rewritten at all. */
  lemma AliasesResolveIntoRoster(hero: string)
    ensures hero in Aliases ==> HandleWeirdHeroNames(hero) in Roster
    ensures hero !in Aliases ==> HandleWeirdHeroNames(hero) == hero
  {
  }

  /** The names the alias table rewrites to. */
  const Resolved: set<string> := {
    "lúcio", "junker queen", "d.va", "wrecking ball", "torbjörn", "brigitte", "soldier: 76"}

  /** An alias is rewritten to one of the Resolved names. */
  lemma AliasResolved(h: string)
    requires h in Aliases
    ensures HandleWeirdHeroNames(h) in Resolved
  {
  }

  /** The Resolved names are roster names and none of them is an alias. */
  lemma ResolvedInRoster()
    ensures Resolved !! Aliases
    ensures forall h :: h in Resolved ==> h in Roster
  {
  }

  /** Each of the Resolved names is what some alias is rewritten to. */
  lemma ResolvedReached(r: string)
    requires r in Resolved
    ensures exists h :: h in Aliases && HandleWeirdHeroNames(h) == r
  {
    var h :=
      if r == "lúcio" then "lucio"
      else if r == "junker queen" then "jq"
      else if r == "d.va" then "dva"
      else if r == "wrecking ball" then "ball"
      else if r == "torbjörn" then "torb"
      else if r == "brigitte" then "brig"
      else "soldier";
    assert h in Aliases && HandleWeirdHeroNames(h) == r;
  }

  /** The alias table rewrites every alias to one of the Resolved names,
      and each of them is reached; every one is a roster name and none of
      them is an alias. */
  lemma ResolvedNames()
    ensures forall h :: h in Aliases ==> HandleWeirdHeroNames(h) in Resolved
    ensures forall r :: r in Resolved ==> exists h :: h in Aliases && HandleWeirdHeroNames(h) == r
    ensures Resolved !! Aliases
    ensures forall h :: h in Resolved ==> h in Roster
  {
    ResolvedInRoster();
    forall h | h in Aliases ensures HandleWeirdHeroNames(h) in Resolved {
      AliasResolved(h);
    }
    forall r | r in Resolved ensures exists h :: h in Aliases && HandleWeirdHeroNames(h) == r {
      ResolvedReached(r);
    }
  }

  /** Resolving twice is resolving once: what comes out is never an alias. */
  lemma {:induction false} HandleWeirdHeroNamesIdempotent(hero: string)
    ensures HandleWeirdHeroNames(HandleWeirdHeroNames(hero)) == HandleWeirdHeroNames(hero)
  {
    var once := HandleWeirdHeroNames(hero);
    if hero in Aliases {
      ResolvedNames();
      AliasesResolveIntoRoster(once);
    } else {
      AliasesResolveIntoRoster(hero);
    }
  }
}
