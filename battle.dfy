/**
 * The battle simulator of web/pages/poke_fight.py: a Pokémon's stats, the
 * damage formula and the round-by-round fight.
 */
module Battle {

  /** One entry of a Pokémon's `stats` list: the stat's name and its base value. */
  datatype StatEntry = StatEntry(statName: string, baseStat: int)

  /**
   * The value a loop over `stats` leaves in a field that it overwrites with
   * every entry named `key`: the base value of the last such entry, or
   * `initial` when there is none.
   */
  function LastStat(stats: seq<StatEntry>, key: string, initial: int): (v: int)
    ensures || (exists j | 0 <= j < |stats| ::
                  && stats[j].statName == key && v == stats[j].baseStat
                  && forall k | j < k < |stats| :: stats[k].statName != key)
            || (v == initial && forall j | 0 <= j < |stats| :: stats[j].statName != key)
  {
    if |stats| == 0 then initial
    else if stats[|stats| - 1].statName == key then stats[|stats| - 1].baseStat
    else
      var init := stats[..|stats| - 1];
      assert forall k | 0 <= k < |init| :: init[k] == stats[k];
      LastStat(init, key, initial)
  }

  function Max(a: int, b: int): int
  {
    if a < b then b else a
  }

  /** Python's `int(x)` on a float: truncation toward zero. */
  function Truncate(x: real): (n: int)
    ensures x >= 0.0 ==> n as real <= x < n as real + 1.0
    ensures x < 0.0 ==> n as real - 1.0 < x <= n as real
  {
    if x >= 0.0 then x.Floor else -((-x).Floor)
  }

  /** For an integer n, `max(1, int(n / 2))` in floating point is `max(1, n / 2)` with Euclidean division. */
  lemma HalfDamage(n: int)
    ensures Max(1, Truncate(n as real / 2.0)) == Max(1, n / 2)
  {
    if n >= 0 {
      var q, r := n / 2, n % 2;
      assert n as real / 2.0 == q as real + r as real / 2.0;
      assert (n as real / 2.0).Floor == q;
    } else {
      assert (-(n as real / 2.0)).Floor >= 0;
      assert n / 2 < 1;
    }
  }

  /** `max(1, int(attack - defense / 2))`, the division done in floating point. */
  function Damage(attack: int, defense: int): (damage: int)
    ensures damage == Max(1, (2 * attack - defense) / 2)
  {
    HalfDamage(2 * attack - defense);
    Max(1, Truncate(attack as real - defense as real / 2.0))
  }

  class Pokemon {
    const name: string
    var hp: int
    var attack: int
    var defense: int

    /** `Pokemon(name)` once the API has answered with the Pokémon's `stats` list. */
    constructor (name: string, stats: seq<StatEntry>)
      ensures this.name == name
      ensures hp == LastStat(stats, "hp", 0)
      ensures attack == LastStat(stats, "attack", 0)
      ensures defense == LastStat(stats, "defense", 0)
    {
      this.name := name;
      hp, attack, defense := 0, 0, 0;
      new;
      GetStatsFromApi(stats);
    }

    /** Copies the "hp", "attack" and "defense" entries of `stats` into the fields; other entries are ignored. */
    method GetStatsFromApi(stats: seq<StatEntry>)
      modifies this`hp, this`attack, this`defense
      ensures hp == LastStat(stats, "hp", old(hp))
      ensures attack == LastStat(stats, "attack", old(attack))
      ensures defense == LastStat(stats, "defense", old(defense))
    {
      for i := 0 to |stats|
        invariant hp == LastStat(stats[..i], "hp", old(hp))
        invariant attack == LastStat(stats[..i], "attack", old(attack))
        invariant defense == LastStat(stats[..i], "defense", old(defense))
      {
        assert stats[..i + 1][..i] == stats[..i];
        var stat := stats[i];
        if stat.statName == "hp" {
          hp := stat.baseStat;
        } else if stat.statName == "attack" {
          attack := stat.baseStat;
        } else if stat.statName == "defense" {
          defense := stat.baseStat;
        }
      }
      assert stats[..|stats|] == stats;
    }

    /**
     * `max(1, int(attack - opponent.defense / 2))`, with the division done in
     * floating point as in the source; always at least 1, and equal to the
     * integer formula with Euclidean division.
     */
    function CalculateDamage(opponent: Pokemon): (damage: int)
      reads this`attack, opponent`defense
      ensures damage >= 1
      ensures damage == Max(1, (2 * attack - opponent.defense) / 2)
    {
      Damage(attack, opponent.defense)
    }
  }

  datatype Side = First | Second

  /** What `simulate_battle` returns: a Pokémon, or "Égalité". */
  datatype Winner = Winner(side: Side) | Draw

  /** One line of the battle log. */
  datatype LogEntry =
    | Strike(round: int, attacker: Side, damage: int, hpLeft: int)  // "Tour r: X inflige d dégâts à Y (HP restant: h)"
    | KnockOut(loser: Side)                                         // "Y est K.O.! X remporte le combat !"
    | TotalDamage(side: Side, total: int)                           // "Dégâts totaux infligés par X : t"
    | MostDamage(winner: Side)                                      // "X remporte le combat avec le plus de dégâts infligés !"
    | Tie                                                           // "Le combat se termine par une égalité."

  /** The end state of a fight: the winner, both hp values, both damage totals, and the log. */
  datatype Fight = Fight(winner: Winner, hp1: int, hp2: int, total1: int, total2: int, log: seq<LogEntry>)

  /** The verdict on damage totals when nobody is knocked out. */
  function Verdict(hp1: int, hp2: int, total1: int, total2: int): (f: Fight)
    ensures f.hp1 == hp1 && f.hp2 == hp2 && f.total1 == total1 && f.total2 == total2
    ensures |f.log| == 3 && f.log[0] == TotalDamage(First, total1) && f.log[1] == TotalDamage(Second, total2)
    ensures f.winner == Winner(First) <==> total1 > total2
    ensures f.winner == Winner(Second) <==> total2 > total1
    ensures f.winner == Draw <==> total1 == total2
    ensures f.log[2] == if f.winner == Draw then Tie else MostDamage(f.winner.side)
  {
    var totals := [TotalDamage(First, total1), TotalDamage(Second, total2)];
    if total1 > total2 then Fight(Winner(First), hp1, hp2, total1, total2, totals + [MostDamage(First)])
    else if total2 > total1 then Fight(Winner(Second), hp1, hp2, total1, total2, totals + [MostDamage(Second)])
    else Fight(Draw, hp1, hp2, total1, total2, totals + [Tie])
  }

  /**
   * The fight from round `round` to round `rounds`, the first Pokémon dealing
   * `d1` per strike and the second `d2`, with damage totals so far `total1`
   * and `total2`. Every strike lowers the defender's hp by exactly the damage
   * and adds it to the attacker's total.
   */
  function Battle(hp1: int, hp2: int, d1: int, d2: int, total1: int, total2: int, round: int, rounds: int): (f: Fight)
    ensures |f.log| >= 2
    ensures round <= rounds ==> f.log[0] == Strike(round, First, d1, hp2 - d1)
    decreases rounds - round
  {
    if rounds < round then Verdict(hp1, hp2, total1, total2)
    else
      var strike1 := Strike(round, First, d1, hp2 - d1);
      if hp2 - d1 <= 0 then
        Fight(Winner(First), hp1, hp2 - d1, total1 + d1, total2, [strike1, KnockOut(Second)])
      else
        var strike2 := Strike(round, Second, d2, hp1 - d2);
        if hp1 - d2 <= 0 then
          Fight(Winner(Second), hp1 - d2, hp2 - d1, total1 + d1, total2 + d2, [strike1, strike2, KnockOut(First)])
        else
          var rest := Battle(hp1 - d2, hp2 - d1, d1, d2, total1 + d1, total2 + d2, round + 1, rounds);
          rest.(log := [strike1, strike2] + rest.log)
  }

  /**
   * Every strike lowers the defender's hp by exactly what it adds to the
   * attacker's total: hp lost and damage dealt always balance.
   */
  lemma {:induction false} DamageConserved(hp1: int, hp2: int, d1: int, d2: int, total1: int, total2: int, round: int, rounds: int)
    ensures var f := Battle(hp1, hp2, d1, d2, total1, total2, round, rounds);
            f.hp1 + f.total2 == hp1 + total2 && f.hp2 + f.total1 == hp2 + total1
    decreases rounds - round
  {
    if round <= rounds && hp2 - d1 > 0 && hp1 - d2 > 0 {
      DamageConserved(hp1 - d2, hp2 - d1, d1, d2, total1 + d1, total2 + d2, round + 1, rounds);
    }
  }

  /** The fight `f` with `prefix` logged before it. */
  function Resume(prefix: seq<LogEntry>, f: Fight): Fight
  {
    f.(log := prefix + f.log)
  }

  /**
   * A round in which the first Pokémon's strike knocks the second out: the
   * fight ends with the second at `hp2'`, the first's total at `total1'` and
   * `log` logged.
   */
  lemma FirstKnocksOut(hp1: int, hp2: int, d1: int, d2: int, total1: int, total2: int, round: int, rounds: int,
                       prefix: seq<LogEntry>, hp2': int, total1': int, log: seq<LogEntry>)
    requires round <= rounds && hp2' == hp2 - d1 <= 0 && total1' == total1 + d1
    requires log == prefix + [Strike(round, First, d1, hp2')] + [KnockOut(Second)]
    ensures Resume(prefix, Battle(hp1, hp2, d1, d2, total1, total2, round, rounds))
            == Fight(Winner(First), hp1, hp2', total1', total2, log)
  {
    assert prefix + [Strike(round, First, d1, hp2'), KnockOut(Second)] == log;
  }

  /** A round in which the second Pokémon's answer knocks the first out. */
  lemma SecondKnocksOut(hp1: int, hp2: int, d1: int, d2: int, total1: int, total2: int, round: int, rounds: int,
                        prefix: seq<LogEntry>, hp1': int, hp2': int, total1': int, total2': int, log: seq<LogEntry>)
    requires round <= rounds && hp2' == hp2 - d1 > 0 && hp1' == hp1 - d2 <= 0
    requires total1' == total1 + d1 && total2' == total2 + d2
    requires log == prefix + [Strike(round, First, d1, hp2')] + [Strike(round, Second, d2, hp1')] + [KnockOut(First)]
    ensures Resume(prefix, Battle(hp1, hp2, d1, d2, total1, total2, round, rounds))
            == Fight(Winner(Second), hp1', hp2', total1', total2', log)
  {
    assert prefix + [Strike(round, First, d1, hp2'), Strike(round, Second, d2, hp1'), KnockOut(First)] == log;
  }

  /** A round both Pokémon survive: the fight goes on from round `round'`, the next one. */
  lemma BothSurvive(hp1: int, hp2: int, d1: int, d2: int, total1: int, total2: int, round: int, rounds: int,
                    prefix: seq<LogEntry>, hp1': int, hp2': int, total1': int, total2': int, round': int, log: seq<LogEntry>)
    requires round <= rounds && hp2' == hp2 - d1 > 0 && hp1' == hp1 - d2 > 0
    requires total1' == total1 + d1 && total2' == total2 + d2 && round' == round + 1
    requires log == prefix + [Strike(round, First, d1, hp2')] + [Strike(round, Second, d2, hp1')]
    ensures Resume(prefix, Battle(hp1, hp2, d1, d2, total1, total2, round, rounds))
            == Resume(log, Battle(hp1', hp2', d1, d2, total1', total2', round', rounds))
  {
    var rest := Battle(hp1', hp2', d1, d2, total1', total2', round', rounds);
    assert prefix + ([Strike(round, First, d1, hp2'), Strike(round, Second, d2, hp1')] + rest.log) == log + rest.log;
  }

  /** The other Pokémon of the fight. */
  function Other(side: Side): Side
  {
    if side == First then Second else First
  }

  /**
   * The `i`-th strike of a fight started in round `round` with hp `hp1` and
   * `hp2`: strikes alternate, the first Pokémon striking first in every
   * round, and every strike takes exactly its damage off the defender.
   */
  function StrikeAt(hp1: int, hp2: int, d1: int, d2: int, round: int, i: nat): LogEntry
  {
    var k := i / 2;
    if i % 2 == 0 then Strike(round + k, First, d1, hp2 - (k + 1) * d1)
    else Strike(round + k, Second, d2, hp1 - (k + 1) * d2)
  }

  /** The schedule after a full round is the schedule of the whole fight, two strikes on. */
  lemma StrikeAtShift(hp1: int, hp2: int, d1: int, d2: int, round: int, i: nat)
    requires i >= 2
    ensures StrikeAt(hp1 - d2, hp2 - d1, d1, d2, round + 1, i - 2) == StrikeAt(hp1, hp2, d1, d2, round, i)
  {
    var k := i / 2;
    assert (i - 2) / 2 == k - 1 && (i - 2) % 2 == i % 2;
    assert (k + 1) * d1 == k * d1 + d1 && (k + 1) * d2 == k * d2 + d2;
  }

  /** Every strike in the log is the one the schedule `StrikeAt` predicts for its position. */
  lemma {:induction false} StrikeSchedule(hp1: int, hp2: int, d1: int, d2: int, total1: int, total2: int, round: int, rounds: int)
    ensures var log := Battle(hp1, hp2, d1, d2, total1, total2, round, rounds).log;
            forall i | 0 <= i < |log| && log[i].Strike? :: log[i] == StrikeAt(hp1, hp2, d1, d2, round, i)
    decreases rounds - round
  {
    var log := Battle(hp1, hp2, d1, d2, total1, total2, round, rounds).log;
    if round <= rounds && hp2 - d1 > 0 && hp1 - d2 > 0 {
      var rest := Battle(hp1 - d2, hp2 - d1, d1, d2, total1 + d1, total2 + d2, round + 1, rounds).log;
      StrikeSchedule(hp1 - d2, hp2 - d1, d1, d2, total1 + d1, total2 + d2, round + 1, rounds);
      assert log == [Strike(round, First, d1, hp2 - d1), Strike(round, Second, d2, hp1 - d2)] + rest;
      forall i | 0 <= i < |log| && log[i].Strike?
        ensures log[i] == StrikeAt(hp1, hp2, d1, d2, round, i)
      {
        if i >= 2 {
          assert log[i] == rest[i - 2];
          StrikeAtShift(hp1, hp2, d1, d2, round, i);
        } else if i == 1 {
          assert StrikeAt(hp1, hp2, d1, d2, round, 1) == Strike(round, Second, d2, hp1 - d2);
        } else {
          assert StrikeAt(hp1, hp2, d1, d2, round, 0) == Strike(round, First, d1, hp2 - d1);
        }
      }
    }
  }

  /** Whether the log reports a knock-out. */
  predicate KnockedOut(log: seq<LogEntry>)
  {
    exists i | 0 <= i < |log| :: log[i].KnockOut?
  }

  /**
   * A knock-out is reported right after the strike that brings the
   * defender's hp to 0 or below, names that defender, and ends the log.
   */
  predicate KnockOutEnds(log: seq<LogEntry>)
  {
    forall i {:trigger log[i]} | 0 <= i < |log| && log[i].KnockOut? ::
      && i == |log| - 1 && 1 <= i && log[i - 1].Strike? && log[i - 1].hpLeft <= 0
      && log[i].loser == Other(log[i - 1].attacker)
  }

  /** A strike is followed by a knock-out exactly when it leaves the defender at 0 hp or below. */
  predicate FatalStrikesKnockOut(log: seq<LogEntry>)
  {
    forall i {:trigger log[i]} | 0 <= i < |log| && log[i].Strike? ::
      log[i].hpLeft <= 0 <==> (i + 1 < |log| && log[i + 1].KnockOut?)
  }

  /** The log of every fight reports a knock-out only right after a fatal strike, and last. */
  lemma {:induction false} KnockOutLast(hp1: int, hp2: int, d1: int, d2: int, total1: int, total2: int, round: int, rounds: int)
    ensures KnockOutEnds(Battle(hp1, hp2, d1, d2, total1, total2, round, rounds).log)
    decreases rounds - round
  {
    if round <= rounds && hp2 - d1 > 0 && hp1 - d2 > 0 {
      var log := Battle(hp1, hp2, d1, d2, total1, total2, round, rounds).log;
      var rest := Battle(hp1 - d2, hp2 - d1, d1, d2, total1 + d1, total2 + d2, round + 1, rounds).log;
      KnockOutLast(hp1 - d2, hp2 - d1, d1, d2, total1 + d1, total2 + d2, round + 1, rounds);
      assert log == [Strike(round, First, d1, hp2 - d1), Strike(round, Second, d2, hp1 - d2)] + rest;
      forall i | 0 <= i < |log| && log[i].KnockOut?
        ensures && i == |log| - 1 && 1 <= i && log[i - 1].Strike? && log[i - 1].hpLeft <= 0
                && log[i].loser == Other(log[i - 1].attacker)
      {
        assert log[i] == rest[i - 2];
        assert log[i - 1] == rest[i - 3];
      }
    }
  }

  /** In the log of every fight, a strike is followed by a knock-out exactly when it is fatal. */
  lemma {:induction false} FatalStrikesEnd(hp1: int, hp2: int, d1: int, d2: int, total1: int, total2: int, round: int, rounds: int)
    ensures FatalStrikesKnockOut(Battle(hp1, hp2, d1, d2, total1, total2, round, rounds).log)
    decreases rounds - round
  {
    if round <= rounds && hp2 - d1 > 0 && hp1 - d2 > 0 {
      var log := Battle(hp1, hp2, d1, d2, total1, total2, round, rounds).log;
      var rest := Battle(hp1 - d2, hp2 - d1, d1, d2, total1 + d1, total2 + d2, round + 1, rounds).log;
      FatalStrikesEnd(hp1 - d2, hp2 - d1, d1, d2, total1 + d1, total2 + d2, round + 1, rounds);
      KnockOutLast(hp1 - d2, hp2 - d1, d1, d2, total1 + d1, total2 + d2, round + 1, rounds);
      assert log == [Strike(round, First, d1, hp2 - d1), Strike(round, Second, d2, hp1 - d2)] + rest;
      forall i | 0 <= i < |log| && log[i].Strike?
        ensures log[i].hpLeft <= 0 <==> (i + 1 < |log| && log[i + 1].KnockOut?)
      {
        if i >= 2 {
          assert log[i] == rest[i - 2];
          if i + 1 < |log| {
            assert log[i + 1] == rest[i - 1];
          }
        } else if i == 1 {
          if |rest| > 0 {
            assert log[2] == rest[0];
          }
        }
      }
    }
  }

  /** A fight whose log ends in a knock-out is won by the Pokémon that was not knocked out. */
  lemma {:induction false} WinnerByKnockOut(hp1: int, hp2: int, d1: int, d2: int, total1: int, total2: int, round: int, rounds: int)
    ensures var f := Battle(hp1, hp2, d1, d2, total1, total2, round, rounds);
            && |f.log| > 0
            && (f.log[|f.log| - 1].KnockOut? ==> f.winner == Winner(Other(f.log[|f.log| - 1].loser)))
    decreases rounds - round
  {
    if round <= rounds && hp2 - d1 > 0 && hp1 - d2 > 0 {
      var f := Battle(hp1, hp2, d1, d2, total1, total2, round, rounds);
      var rest := Battle(hp1 - d2, hp2 - d1, d1, d2, total1 + d1, total2 + d2, round + 1, rounds);
      WinnerByKnockOut(hp1 - d2, hp2 - d1, d1, d2, total1 + d1, total2 + d2, round + 1, rounds);
      assert f.log[|f.log| - 1] == rest.log[|rest.log| - 1] && f.winner == rest.winner;
    }
  }

  /**
   * A fight that ends without a knock-out is won by the Pokémon with the
   * strictly larger damage total, and drawn on equal totals.
   */
  lemma {:induction false} WinnerByTotals(hp1: int, hp2: int, d1: int, d2: int, total1: int, total2: int, round: int, rounds: int)
    ensures var f := Battle(hp1, hp2, d1, d2, total1, total2, round, rounds);
            !KnockedOut(f.log) ==>
              && (f.winner == Winner(First) <==> f.total1 > f.total2)
              && (f.winner == Winner(Second) <==> f.total2 > f.total1)
              && (f.winner == Draw <==> f.total1 == f.total2)
    decreases rounds - round
  {
    var f := Battle(hp1, hp2, d1, d2, total1, total2, round, rounds);
    if round <= rounds {
      if hp2 - d1 <= 0 {
        assert f.log[1].KnockOut?;
      } else if hp1 - d2 <= 0 {
        assert f.log[2].KnockOut?;
      } else {
        var rest := Battle(hp1 - d2, hp2 - d1, d1, d2, total1 + d1, total2 + d2, round + 1, rounds);
        WinnerByTotals(hp1 - d2, hp2 - d1, d1, d2, total1 + d1, total2 + d2, round + 1, rounds);
        assert f.log == [f.log[0], f.log[1]] + rest.log;
        assert f.winner == rest.winner && f.total1 == rest.total1 && f.total2 == rest.total2;
        if !KnockedOut(f.log) {
          forall j | 0 <= j < |rest.log|
            ensures !rest.log[j].KnockOut?
          {
            assert rest.log[j] == f.log[j + 2];
          }
        }
      }
    }
  }

  /**
   * When both Pokémon survive every remaining round, each strike lands
   * `rounds - round + 1` times, nobody is knocked out and the totals decide.
   */
  lemma {:induction false} BothSurviveAll(hp1: int, hp2: int, d1: int, d2: int, total1: int, total2: int, round: int, rounds: int)
    requires d1 >= 1 && d2 >= 1 && round <= rounds + 1
    requires hp2 - (rounds - round + 1) * d1 > 0 && hp1 - (rounds - round + 1) * d2 > 0
    ensures var f, n := Battle(hp1, hp2, d1, d2, total1, total2, round, rounds), rounds - round + 1;
            && !KnockedOut(f.log)
            && f.hp1 == hp1 - n * d2 && f.hp2 == hp2 - n * d1
            && f.total1 == total1 + n * d1 && f.total2 == total2 + n * d2
    decreases rounds - round
  {
    var n := rounds - round + 1;
    var f := Battle(hp1, hp2, d1, d2, total1, total2, round, rounds);
    if round <= rounds {
      SurvivesFirstStrike(n, d1, hp2);
      SurvivesFirstStrike(n, d2, hp1);
      var rest := Battle(hp1 - d2, hp2 - d1, d1, d2, total1 + d1, total2 + d2, round + 1, rounds);
      BothSurviveAll(hp1 - d2, hp2 - d1, d1, d2, total1 + d1, total2 + d2, round + 1, rounds);
      assert f == rest.(log := [Strike(round, First, d1, hp2 - d1), Strike(round, Second, d2, hp1 - d2)] + rest.log);
      forall j | 0 <= j < |f.log|
        ensures !f.log[j].KnockOut?
      {
        if j >= 2 {
          assert f.log[j] == rest.log[j - 2];
        }
      }
    } else {
      assert !KnockedOut(f.log) by {
        assert f.log == Verdict(hp1, hp2, total1, total2).log;
      }
    }
  }

  /** Surviving `n` strikes means surviving the first, and the `n - 1` after it. */
  lemma SurvivesFirstStrike(n: int, d: int, hp: int)
    requires n >= 1 && d >= 1 && hp - n * d > 0
    ensures hp - d > 0 && (hp - d) - (n - 1) * d > 0
  {
    assert n * d == (n - 1) * d + d;
  }

  /** Scaling by a positive number keeps comparisons. */
  lemma {:induction false} ScaleCompare(n: int, a: int, b: int)
    requires n >= 1
    ensures (n * a > n * b <==> a > b) && (n * a == n * b <==> a == b)
  {
    if n > 1 {
      ScaleCompare(n - 1, a, b);
      assert n * a == (n - 1) * a + a && n * b == (n - 1) * b + b;
    }
  }

  /**
   * A fight of `rounds >= 1` rounds in which both Pokémon survive is won by
   * the one that deals more damage per strike, and drawn on equal damage.
   */
  lemma HarderHitterWins(hp1: int, hp2: int, d1: int, d2: int, rounds: int)
    requires d1 >= 1 && d2 >= 1 && rounds >= 1
    requires hp2 - rounds * d1 > 0 && hp1 - rounds * d2 > 0
    ensures var f := Battle(hp1, hp2, d1, d2, 0, 0, 1, rounds);
            && (f.winner == Winner(First) <==> d1 > d2)
            && (f.winner == Winner(Second) <==> d2 > d1)
            && (f.winner == Draw <==> d1 == d2)
  {
    assert rounds - 1 + 1 == rounds;
    BothSurviveAll(hp1, hp2, d1, d2, 0, 0, 1, rounds);
    WinnerByTotals(hp1, hp2, d1, d2, 0, 0, 1, rounds);
    ScaleCompare(rounds, d1, d2);
    ScaleCompare(rounds, d2, d1);
  }

  /** `simulate_battle(pokemon1, pokemon2, rounds)`: both Pokémon's hp are updated in place. */
  method SimulateBattle(pokemon1: Pokemon, pokemon2: Pokemon, rounds: int) returns (winner: Winner, battleLog: seq<LogEntry>)
    requires pokemon1 != pokemon2
    modifies pokemon1`hp, pokemon2`hp
    ensures var f := Battle(old(pokemon1.hp), old(pokemon2.hp), old(pokemon1.CalculateDamage(pokemon2)),
                            old(pokemon2.CalculateDamage(pokemon1)), 0, 0, 1, rounds);
            f == Fight(winner, pokemon1.hp, pokemon2.hp, f.total1, f.total2, battleLog)
  {
    var totalDamage1, totalDamage2 := 0, 0;
    battleLog := [];
    ghost var d1, d2 := pokemon1.CalculateDamage(pokemon2), pokemon2.CalculateDamage(pokemon1);
    ghost var whole := Battle(pokemon1.hp, pokemon2.hp, d1, d2, 0, 0, 1, rounds);
    assert whole == Resume(battleLog, whole);
    var round := 1;
    while round <= rounds
      invariant 1 <= round
      invariant pokemon1.attack == old(pokemon1.attack) && pokemon2.defense == old(pokemon2.defense)
      invariant pokemon2.attack == old(pokemon2.attack) && pokemon1.defense == old(pokemon1.defense)
      invariant whole == Resume(battleLog, Battle(pokemon1.hp, pokemon2.hp, d1, d2, totalDamage1, totalDamage2, round, rounds))
      decreases rounds - round
    {
      ghost var hp1, hp2, total1, total2, prefix := pokemon1.hp, pokemon2.hp, totalDamage1, totalDamage2, battleLog;
      // pokemon1 attacks pokemon2
      var damageByPokemon1 := pokemon1.CalculateDamage(pokemon2);
      pokemon2.hp := pokemon2.hp - damageByPokemon1;
      totalDamage1 := totalDamage1 + damageByPokemon1;
      battleLog := battleLog + [Strike(round, First, damageByPokemon1, pokemon2.hp)];
      if pokemon2.hp <= 0 {
        battleLog := battleLog + [KnockOut(Second)];
        FirstKnocksOut(hp1, hp2, d1, d2, total1, total2, round, rounds, prefix, pokemon2.hp, totalDamage1, battleLog);
        return Winner(First), battleLog;
      }
      // pokemon2 attacks pokemon1
      var damageByPokemon2 := pokemon2.CalculateDamage(pokemon1);
      pokemon1.hp := pokemon1.hp - damageByPokemon2;
      totalDamage2 := totalDamage2 + damageByPokemon2;
      battleLog := battleLog + [Strike(round, Second, damageByPokemon2, pokemon1.hp)];
      if pokemon1.hp <= 0 {
        battleLog := battleLog + [KnockOut(First)];
        SecondKnocksOut(hp1, hp2, d1, d2, total1, total2, round, rounds, prefix,
                        pokemon1.hp, pokemon2.hp, totalDamage1, totalDamage2, battleLog);
        return Winner(Second), battleLog;
      }
      round := round + 1;
      BothSurvive(hp1, hp2, d1, d2, total1, total2, round - 1, rounds, prefix,
                  pokemon1.hp, pokemon2.hp, totalDamage1, totalDamage2, round, battleLog);
    }
    // nobody is K.O.: the damage totals decide
    var verdict := Verdict(pokemon1.hp, pokemon2.hp, totalDamage1, totalDamage2);
    winner, battleLog := verdict.winner, battleLog + verdict.log;
  }
}
