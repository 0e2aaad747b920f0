/**
 * The stat reports of web/pages/poke_info.py: one Pokémon's stats, a
 * two-Pokémon comparison and a per-type average. Every lookup of the
 * Pokémon API is an input: `Some(data)` for a 200 answer, `None` otherwise.
 */
module PokeInfo {
  import opened Wrappers
  import opened Http
  import Battle
  import BatchFetch

  /** The part of a Pokémon's JSON record the reports read. */
  datatype PokemonData = PokemonData(name: string, stats: seq<Battle.StatEntry>)

  /** One report line; the `.capitalize()` of names and the float formatting are not modelled. */
  datatype Line =
    | StatsHeader(name: string)                                    // "Statistiques de Name:"
    | HpLine(hp: int)                                              // "- Points de vie (HP) : hp"
    | AttackLine(attack: int)                                      // "- Attaque : attack"
    | DefenseLine(defense: int)                                    // "- Défense : defense"
    | SpeedLine(speed: int)                                        // "- Vitesse : speed"
    | CompareHeader(first: string, second: string)                 // "Comparaison entre A et B:"
    | MoreHp(credited: string, creditedHp: int, otherHp: int)      // "X a plus de points de vie (a contre b)."
    | BetterAttack(credited: string, creditedAttack: int, otherAttack: int)  // "X a une meilleure attaque (a contre b)."
    | TypeHeader(typeName: string)                                 // "Statistiques pour le type T:"
    | CountLine(count: int)                                        // "- Nombre de Pokémon : n"
    | AverageLine(average: real)                                   // "- Moyenne des points de vie (HP) : avg"
    | NoneFound(typeName: string)                                  // "Aucun Pokémon trouvé pour le type T."
    | TypeNotFound(typeName: string)                               // "Erreur : Le type T n'a pas été trouvé."

  /** `get_pokemon_data`: the record when the API answers 200, `None` for any other status. */
  function GetPokemonData(status: int, body: PokemonData): (data: Option<PokemonData>)
    ensures data.Some? <==> status == OK
    ensures data.Some? ==> data.value == body
  {
    if status == OK then Some(body) else None
  }

  /**
   * `get_pokemon_data` classifies a response as the load generator's `fetch`
   * does; the two differ only in that `fetch` also catches request exceptions.
   */
  lemma GetPokemonDataIsFetch(status: int, retryAfter: Option<nat>, body: PokemonData)
    ensures GetPokemonData(status, body) == BatchFetch.Fetch(Response(status, retryAfter, body))
  {
  }

  /**
   * `display_pokemon_stats`: five lines, the stats read at positions 0, 1,
   * 2 and 5 of the record's list, when the lookup succeeded; nothing when it
   * failed.
   */
  method DisplayPokemonStats(data: Option<PokemonData>) returns (stats: Option<seq<Line>>)
    requires data.Some? ==> |data.value.stats| >= 6
    ensures data.None? <==> stats.None?
    ensures data.Some? ==>
              var s := data.value.stats;
              stats == Some([StatsHeader(data.value.name), HpLine(s[0].baseStat), AttackLine(s[1].baseStat),
                             DefenseLine(s[2].baseStat), SpeedLine(s[5].baseStat)])
  {
    if data.None? {
      return None;
    }
    var lines := [];
    var s := data.value.stats;
    var hp, attack, defense, speed := s[0].baseStat, s[1].baseStat, s[2].baseStat, s[5].baseStat;
    lines := lines + [StatsHeader(data.value.name)];
    lines := lines + [HpLine(hp)];
    lines := lines + [AttackLine(attack)];
    lines := lines + [DefenseLine(defense)];
    lines := lines + [SpeedLine(speed)];
    assert lines == [StatsHeader(data.value.name), HpLine(hp), AttackLine(attack), DefenseLine(defense), SpeedLine(speed)];
    return Some(lines);
  }

  /** The order in which the Pokémon API lists the six base stats. */
  predicate CanonicalOrder(stats: seq<Battle.StatEntry>)
  {
    && |stats| == 6
    && stats[0].statName == "hp" && stats[1].statName == "attack" && stats[2].statName == "defense"
    && stats[3].statName == "special-attack" && stats[4].statName == "special-defense" && stats[5].statName == "speed"
  }

  /**
   * On a list in the API's order, reading stats by position, as the reports
   * do, gives what the battle simulator's reading by name gives.
   */
  lemma PositionsMatchNames(stats: seq<Battle.StatEntry>, initial: int)
    requires CanonicalOrder(stats)
    ensures stats[0].baseStat == Battle.LastStat(stats, "hp", initial)
    ensures stats[1].baseStat == Battle.LastStat(stats, "attack", initial)
    ensures stats[2].baseStat == Battle.LastStat(stats, "defense", initial)
  {
    var names := ["hp", "attack", "defense", "special-attack", "special-defense", "speed"];
    assert forall k | 0 <= k < 6 :: stats[k].statName == names[k];
    assert forall j, k | 0 <= j < k < 6 :: names[j] != names[k] by {
      assert forall k | 0 <= k < 6 :: |names[k]| >= 2;
      assert names[0][0] == 'h' && names[1][0] == 'a' && names[2][0] == 'd' && names[5][1] == 'p';
      assert names[3][1] == 'p' && names[4][1] == 'p' && names[3][8] == 'a' && names[4][8] == 'd';
    }
  }

  /**
   * `compare_pokemon`: when both lookups succeed, a header and two lines;
   * each line credits the first Pokémon only when its value is strictly
   * larger, and the second on a tie. Nothing when either lookup failed.
   */
  method ComparePokemon(name1: string, name2: string, data1: Option<PokemonData>, data2: Option<PokemonData>)
    returns (comparison: Option<seq<Line>>)
    requires data1.Some? && data2.Some? ==> |data1.value.stats| >= 2 && |data2.value.stats| >= 2
    ensures comparison.Some? <==> data1.Some? && data2.Some?
    ensures comparison.Some? ==>
              var c, s1, s2 := comparison.value, data1.value.stats, data2.value.stats;
              && |c| == 3
              && c[0] == CompareHeader(name1, name2)
              && c[1].MoreHp? && c[1].creditedHp >= c[1].otherHp
              && (s1[0].baseStat > s2[0].baseStat ==> c[1] == MoreHp(name1, s1[0].baseStat, s2[0].baseStat))
              && (s1[0].baseStat <= s2[0].baseStat ==> c[1] == MoreHp(name2, s2[0].baseStat, s1[0].baseStat))
              && c[2].BetterAttack? && c[2].creditedAttack >= c[2].otherAttack
              && (s1[1].baseStat > s2[1].baseStat ==> c[2] == BetterAttack(name1, s1[1].baseStat, s2[1].baseStat))
              && (s1[1].baseStat <= s2[1].baseStat ==> c[2] == BetterAttack(name2, s2[1].baseStat, s1[1].baseStat))
  {
    if data1.None? || data2.None? {
      return None;
    }
    var lines := [];
    var hp1, attack1 := data1.value.stats[0].baseStat, data1.value.stats[1].baseStat;
    var hp2, attack2 := data2.value.stats[0].baseStat, data2.value.stats[1].baseStat;
    lines := lines + [CompareHeader(name1, name2)];
    if hp1 > hp2 {
      lines := lines + [MoreHp(name1, hp1, hp2)];
    } else {
      lines := lines + [MoreHp(name2, hp2, hp1)];
    }
    if attack1 > attack2 {
      lines := lines + [BetterAttack(name1, attack1, attack2)];
    } else {
      lines := lines + [BetterAttack(name2, attack2, attack1)];
    }
    return Some(lines);
  }

  /** Whether every successful lookup in the list has an hp entry at position 0. */
  predicate HasHp(found: seq<Option<PokemonData>>)
  {
    forall i | 0 <= i < |found| && found[i].Some? :: |found[i].value.stats| >= 1
  }

  /** How many of the type's Pokémon were found. */
  function Found(found: seq<Option<PokemonData>>): (count: nat)
    ensures count <= |found|
    ensures count == 0 <==> forall i | 0 <= i < |found| :: found[i].None?
  {
    if found == [] then 0
    else Found(found[..|found| - 1]) + (if found[|found| - 1].Some? then 1 else 0)
  }

  /** The hp of the type's Pokémon that were found, added up. */
  function HpSum(found: seq<Option<PokemonData>>): (sum: int)
    requires HasHp(found)
    ensures Found(found) == 0 ==> sum == 0
  {
    if found == [] then 0
    else
      var last := found[|found| - 1];
      HpSum(found[..|found| - 1]) + (if last.Some? then last.value.stats[0].baseStat else 0)
  }

  /** Whether every Pokémon that was found has hp between `lo` and `hi`. */
  predicate HpWithin(found: seq<Option<PokemonData>>, lo: int, hi: int)
    requires HasHp(found)
  {
    forall i | 0 <= i < |found| && found[i].Some? :: lo <= found[i].value.stats[0].baseStat <= hi
  }

  /** The sum of the found hp lies between `lo` and `hi` times the number found. */
  lemma {:induction false} HpSumBounds(found: seq<Option<PokemonData>>, lo: int, hi: int)
    requires HasHp(found) && HpWithin(found, lo, hi)
    ensures lo * Found(found) <= HpSum(found) <= hi * Found(found)
  {
    if found != [] {
      var init := found[..|found| - 1];
      assert HasHp(init) && HpWithin(init, lo, hi) by {
        forall i | 0 <= i < |init| ensures init[i] == found[i] { }
      }
      HpSumBounds(init, lo, hi);
      if found[|found| - 1].Some? {
        assert lo * (Found(init) + 1) == lo * Found(init) + lo;
        assert hi * (Found(init) + 1) == hi * Found(init) + hi;
      }
    }
  }

  /** A quotient by a positive number lies between the bounds its dividend lies between, scaled. */
  lemma QuotientWithin(lo: real, hi: real, sum: real, n: real)
    requires n > 0.0 && lo * n <= sum <= hi * n
    ensures lo <= sum / n <= hi
  {
    var q := sum / n;
    assert q * n == sum;
    assert (q - lo) * n >= 0.0;
    assert (hi - q) * n >= 0.0;
  }

  /** Converting a product to a real is multiplying the converted factors. */
  lemma {:induction false} ProductAsReal(a: int, n: nat)
    ensures (a * n) as real == a as real * n as real
  {
    if n > 0 {
      ProductAsReal(a, n - 1);
      assert a * n == a * (n - 1) + a;
      assert a as real * n as real == a as real * (n - 1) as real + a as real;
    }
  }

  /** `QuotientWithin` for whole numbers, the division done exactly. */
  lemma AverageOfBounded(lo: int, hi: int, sum: int, n: nat)
    requires n > 0 && lo * n <= sum <= hi * n
    ensures lo as real <= sum as real / n as real <= hi as real
  {
    ProductAsReal(lo, n);
    ProductAsReal(hi, n);
    QuotientWithin(lo as real, hi as real, sum as real, n as real);
  }

  /** The reported average lies between the smallest and the largest hp found. */
  lemma AverageWithin(found: seq<Option<PokemonData>>, lo: int, hi: int)
    requires HasHp(found) && HpWithin(found, lo, hi) && Found(found) > 0
    ensures lo as real <= HpSum(found) as real / Found(found) as real <= hi as real
  {
    HpSumBounds(found, lo, hi);
    AverageOfBounded(lo, hi, HpSum(found), Found(found));
  }

  /**
   * `calculate_type_stats`: an error line when the type lookup fails, one
   * line when none of its Pokémon is found, and otherwise a header, the
   * number found and the average of their hp. `listing` is `None` when the
   * type lookup fails, and otherwise holds the lookup of each Pokémon the
   * type lists, in order.
   */
  method CalculateTypeStats(typeName: string, listing: Option<seq<Option<PokemonData>>>) returns (stats: seq<Line>)
    requires listing.Some? ==> HasHp(listing.value)
    ensures listing.None? ==> stats == [TypeNotFound(typeName)]
    ensures listing.Some? && Found(listing.value) == 0 ==> stats == [NoneFound(typeName)]
    ensures listing.Some? && Found(listing.value) > 0 ==>
              stats == [TypeHeader(typeName), CountLine(Found(listing.value)),
                        AverageLine(HpSum(listing.value) as real / Found(listing.value) as real)]
  {
    stats := [];
    if listing.None? {
      stats := stats + [TypeNotFound(typeName)];
      return;
    }
    var pokemonList := listing.value;
    var totalHp, count := 0, 0;
    for i := 0 to |pokemonList|
      invariant HasHp(pokemonList[..i])
      invariant count == Found(pokemonList[..i])
      invariant totalHp == HpSum(pokemonList[..i])
    {
      assert pokemonList[..i + 1][..i] == pokemonList[..i];
      var pokemonData := pokemonList[i];
      if pokemonData.Some? {
        var hp := pokemonData.value.stats[0].baseStat;
        totalHp := totalHp + hp;
        count := count + 1;
      }
    }
    assert pokemonList[..|pokemonList|] == pokemonList;
    if count > 0 {
      var averageHp := totalHp as real / count as real;
      stats := stats + [TypeHeader(typeName)];
      stats := stats + [CountLine(count)];
      stats := stats + [AverageLine(averageHp)];
    } else {
      stats := stats + [NoneFound(typeName)];
    }
  }
}
