# PokeAPI toolkit — a Dafny model

This project models the sequential logic of a small Python toolkit built on the
public Pokémon API. The toolkit has four parts:

- **Retry client.** `robust_api_call` sends GET requests in a bounded loop. It returns the
  body of the first 200 answer. It waits the `Retry-After` seconds on a 429 (section 4 of
  RFC 6585), backs off exponentially on 500/503, connection errors and timeouts, and gives
  up at once on anything else.
- **Battle simulator.** A `Pokemon` object holds `hp`, `attack` and `defense` fields, read
  from the API's stats list. `calculate_damage` is `max(1, int(attack - defense / 2))`.
  `simulate_battle` runs up to `rounds` rounds of alternating strikes. It lowers each
  defender's `hp` in place and ends on a knock-out or on the damage totals.
- **Pokémon store.** A list of `{name, hp, attack, defense}` records behind a small web
  service. It supports lookup, add, rename and delete, each with its error replies.
- **Load generator and stat reports.** `fetch`, `fetch_all` and the URL-list expansion of
  `simulate_high_load`. There are also the single-Pokémon stat report, the two-Pokémon
  comparison and the per-type hp average.

The network is an input throughout:

- For the retry loop it is a function from the attempt number to that attempt's `Outcome`:
  a response with a status, an optional `Retry-After` and a body, or one of three request
  exceptions.
- For the batch fetch it is a function of the request number and the URL.
- For the reports, each lookup is an `Option` value: `Some(data)` for a 200 answer.

Sleeps are recorded as the list of durations slept, and log lines as structured values.

Modules, one per concern:

| file | module | models |
|---|---|---|
| wrappers.dfy | `Wrappers` | `Option` |
| http.dfy | `Http` | status codes and the outcome of one GET |
| retry.dfy | `RetryClient` | `robust_api_call` |
| battle.dfy | `Battle` | `Pokemon`, `calculate_damage`, `simulate_battle` |
| store.dfy | `PokeStore` | the record list and its four operations (`Store` class) |
| batch.dfy | `BatchFetch` | `fetch`, `fetch_all`, `simulate_high_load` |
| info.dfy | `PokeInfo` | `get_pokemon_data`, `display_pokemon_stats`, `compare_pokemon`, `calculate_type_stats` |

Each loop of the source, and each operation that changes the store, is a `method`
whose `ensures` ties its result or new state to a specification:

- `RobustApiCall` equals the recursive function `CallFrom`;
- `SimulateBattle` equals the recursive function `Battle`;
- `GetStatsFromApi` sets each field to the recursive function `LastStat`;
- `FetchAll` gives, element by element, `Fetch` of each URL;
- `CalculateTypeStats` reports the recursive functions `Found` and `HpSum`;
- the `Store` methods give the exact new list, stated with `Named`, `FirstIndex` and sequence slices.

The list comprehensions of the store are functions (`Named`), not methods. Lemmas then
prove the source's promises about the specification functions.

## Model

| member | source | states |
|---|---|---|
| RetryClient.RobustApiCall | web/pages/poke_fight.py:5-74 | the while loop returns exactly the result, the sleep list and the attempt count of the retry policy `CallFrom` started at `retries = 0` |
| RetryClient.CallFrom | web/pages/poke_fight.py:18-20 | no attempt at all once `max_retries <= retries` (so none when `max_retries <= 0`); otherwise between 1 and `max_retries - retries` attempts; a successful call slept once per failed attempt, a failed one once per attempt or one fewer |
| RetryClient.React | web/pages/poke_fight.py:26-66 | the reaction to one attempt: a success carries the response's body; a sleep after a 429 lasts its `Retry-After` (1 when absent), and after any other retried outcome `backoff_factor ** retries` |
| RetryClient.RobustCall | web/pages/poke_fight.py:5-74 | a whole call: no attempt when `max_retries <= 0`, otherwise between 1 and `max_retries` attempts; a successful call slept once per failed attempt |
| RetryClient.CallStep | web/pages/poke_fight.py:20-69 | loop step used by the proof of `RobustApiCall`, one unfolding of `CallFrom`: one turn of the loop: a 200 returns its body, a fail-fast outcome returns None, a retryable one appends its sleep and continues at `retries + 1` |
| RetryClient.ReactionClassifies | web/pages/poke_fight.py:26-66 | every outcome is exactly one of: success (status 200), retry (429, 500, 503, connection error, timeout) or give-up (any other status, any other request exception) |
| RetryClient.CallAfterRetries | web/pages/poke_fight.py:20-39 | a run of retried attempts only prepends its sleeps and its attempt count to the rest of the call |
| RetryClient.WaitAt | web/pages/poke_fight.py:30-39 | the sleep after attempt `r` is the 429's `Retry-After` (1 when absent), and `backoff_factor ** r` for every other retried outcome |
| RetryClient.FirstSuccessReturned | web/pages/poke_fight.py:20-27 | the first 200 within the budget ends the call with its body after `k + 1` attempts; no further attempt is made |
| RetryClient.FailFast | web/pages/poke_fight.py:40-55 | 400/401/403/404, any unlisted status, or a request exception other than connection error and timeout ends the call after that attempt with None and no extra sleep |
| RetryClient.RetriesExhausted | web/pages/poke_fight.py:69-74 | when every attempt is retried, exactly `max_retries` attempts are made, each followed by its sleep, and the result is None |
| RetryClient.RateLimitThenServerErrorThenSuccess | web/pages/poke_fight.py:30-39 | with the default policy, 429 without Retry-After, 500, then 200 sleeps 1 then 2 seconds and returns the body after three attempts |
| RetryClient.NotFoundFailsFast | web/pages/poke_fight.py:49-51 | a 404 ends the call after one attempt, with no sleep and None |
| RetryClient.ServerErrorsExhaustRetries | web/pages/poke_fight.py:35-39 | five 500s exhaust the default budget, sleeping 1, 2, 4, 8 and 16 seconds, and give None |
| BatchFetch.FetchIsOneAttempt | q2commune_noparallel.py:15-26 | `fetch` returns what a retrying call with a one-attempt budget returns |
| Battle.LastStat | web/pages/poke_fight.py:103-109 | the value the stat loop leaves in a field: the base value of the last entry with that name, with no later entry of that name, or the field's initial value when no entry has the name |
| Battle.Pokemon.GetStatsFromApi | web/pages/poke_fight.py:95-109 | the loop sets hp, attack and defense each to `LastStat` of its own name; entries with other names change nothing |
| Battle.Pokemon.constructor | web/pages/poke_fight.py:88-93 | a new Pokémon has its name and, for each of hp, attack and defense, the last value listed under that name, or 0 when it is not listed |
| Battle.Truncate | web/pages/poke_fight.py:118 | Python's `int()` on a float truncates toward zero: the result is the integer at most 1 away from `x` on the side of 0 |
| Battle.HalfDamage | web/pages/poke_fight.py:117-118 | for an integer numerator, `max(1, int(n / 2))` with float division and truncation equals `max(1, n / 2)` with Euclidean division |
| Battle.Damage | web/pages/poke_fight.py:117-118 | the float formula `max(1, int(attack - defense / 2))` equals the integer formula `max(1, (2 * attack - defense) / 2)` |
| Battle.Pokemon.CalculateDamage | web/pages/poke_fight.py:113-118 | the damage dealt to an opponent is always at least 1 and equals the integer formula on the attacker's attack and the opponent's defense |
| Battle.SimulateBattle | web/pages/poke_fight.py:120-191 | the loop's winner, log and both Pokémon's new hp are those of the fight `Battle` from round 1 with zero totals and the two damages fixed at the start |
| Battle.Battle | web/pages/poke_fight.py:136-191 | the fight from round `round` on: its log always holds at least two entries, and when a round is left it opens with the first Pokémon's strike; its other properties are the lemmas below |
| Battle.Verdict | web/pages/poke_fight.py:168-191 | the end of a fight without knock-out: hp and totals unchanged, the two totals logged, then the first wins iff its total is strictly larger, the second iff its total is, a draw iff they are equal, with the matching closing line |
| Battle.DamageConserved | web/pages/poke_fight.py:138-140 | hp lost by each Pokémon equals the damage total of its opponent: every strike lowers the defender's hp by exactly what it adds to the attacker's total |
| Battle.FirstKnocksOut | web/pages/poke_fight.py:138-151 | loop step used by the proof of `SimulateBattle`, one unfolding of `Battle`: when the first strike of a round brings the second Pokémon to 0 hp or below, the fight ends there, won by the first, before the second strikes back |
| Battle.SecondKnocksOut | web/pages/poke_fight.py:154-166 | loop step used by the proof of `SimulateBattle`, one unfolding of `Battle`: when the first Pokémon survives and the answering strike brings it to 0 hp or below, the fight ends there, won by the second |
| Battle.BothSurvive | web/pages/poke_fight.py:136-166 | loop step used by the proof of `SimulateBattle`, one unfolding of `Battle`: a round both survive logs the two strikes and the fight goes on from the next round with the lowered hp and raised totals |
| Battle.StrikeSchedule | web/pages/poke_fight.py:136-158 | strike `i` of the log is the one the schedule predicts: the first Pokémon strikes first in every round, and strike `2k` (or `2k+1`) of the first (or second) Pokémon leaves the defender at its starting hp minus `(k + 1)` damages |
| Battle.KnockOutLast | web/pages/poke_fight.py:147-166 | a knock-out is reported only right after a strike that leaves the defender at 0 hp or below, names that defender, and is the last log entry |
| Battle.FatalStrikesEnd | web/pages/poke_fight.py:147-166 | a strike is followed by a knock-out exactly when it leaves the defender at 0 hp or below |
| Battle.WinnerByKnockOut | web/pages/poke_fight.py:147-166 | the log is never empty, and a fight whose log ends in a knock-out is won by the Pokémon that was not knocked out |
| Battle.WinnerByTotals | web/pages/poke_fight.py:168-191 | without a knock-out, the first wins iff its total is strictly larger, the second iff its total is strictly larger, and the fight is a draw iff the totals are equal |
| Battle.BothSurviveAll | web/pages/poke_fight.py:136-166 | when both survive all `n` remaining rounds, nobody is knocked out and each hp drops, and each total grows, by exactly `n` times the opponent's (own) damage |
| Battle.HarderHitterWins | web/pages/poke_fight.py:136-191 | when both survive every round, the Pokémon dealing more damage per strike wins, and equal damage is a draw |
| PokeStore.Named | own_poke.py:29 | the lookup is no longer than the list, holds a record iff the list holds it with that name, and is empty iff no record has the name |
| PokeStore.NamedAppend | own_poke.py:29 | the lookup keeps list order: a record appended to the list is appended to the lookup when it has the name, and changes nothing otherwise |
| PokeStore.NamedCount | own_poke.py:29 | the lookup holds each record with the name exactly as many times as the list does, and no record with another name |
| PokeStore.FirstIndex | own_poke.py:66-70 | the first position with that name: no earlier record has the name, and `|data|` when none does |
| PokeStore.FirstOfNamed | own_poke.py:70 | the first record of a non-empty lookup is the record at the first position with that name |
| PokeStore.RemoveFirst | own_poke.py:82 | `list.remove(p)` on a list holding `p` removes exactly one element; which one is stated by `RemoveFirstAt` |
| PokeStore.RemoveFirstAt | own_poke.py:82 | `list.remove(p)` deletes the first position holding `p` and keeps the other records in order |
| PokeStore.RemoveFirstNamed | own_poke.py:79-82 | removing the first record of a lookup by value deletes exactly the record at the first position with that name |
| PokeStore.AppendKeepsUnique | own_poke.py:44-56 | appending a record whose name is not taken keeps names pairwise distinct |
| PokeStore.DeleteKeepsUnique | own_poke.py:82 | deleting a record keeps names pairwise distinct |
| PokeStore.RenameUnique | own_poke.py:64-72 | renaming keeps names distinct iff no other record already carries the new name |
| PokeStore.RenameBreaksUnique | own_poke.py:64-72 | renaming "a" to "b" in a store holding "a" and "b" leaves two records named "b" |
| PokeStore.Store.constructor | own_poke.py:7-8 | the store starts with the loaded list |
| PokeStore.Store.ReturnOne | own_poke.py:28-32 | 400 "pokemon not found" iff no record has the name; otherwise 200 with the lookup `Named` (the records of that name in list order, each as often as in the list), the first being the first such record in the list |
| PokeStore.Store.AddOne | own_poke.py:36-61 | 400 "Missing data" with the list unchanged when a key is absent; 400 "pokemon already here" with the list unchanged when the name is taken; otherwise the record of the four fields appended at the end and 201 with the new list; distinct names stay distinct |
| PokeStore.Store.EditOne | own_poke.py:65-74 | 400 with the list unchanged when no record has the old name; otherwise only the name of the first record with the old name changes, length and all other records stay, and 200 with the new list |
| PokeStore.Store.RemoveOne | own_poke.py:78-86 | 400 with the list unchanged when no record has the name; otherwise exactly the first record with the name is deleted, the rest keep their order, and 200 with the new list; distinct names stay distinct |
| BatchFetch.Fetch | q2commune_noparallel.py:4-26 | the parsed body exactly when the status is 200; None for every other status and every request exception |
| BatchFetch.FetchAll | q2commune_noparallel.py:28-40 | one result per URL, result `i` being `fetch` of request `i` to `urls[i]` |
| BatchFetch.Repeat | q2commune_noparallel.py:52 | `urls * n` is empty for `n <= 0` and otherwise holds `len(urls) * n` URLs |
| BatchFetch.RepeatAt | q2commune_noparallel.py:52 | position `i` of `urls * n` holds `urls[i % len(urls)]` |
| BatchFetch.Expand | q2commune_noparallel.py:52 | the expanded list holds `len(urls) * (total_requests // len(urls))` URLs, at most `total_requests` and fewer than `len(urls)` short of it, and none when `total_requests < len(urls)` |
| BatchFetch.ThreeUrlsHundredRequests | q2commune_noparallel.py:63-70 | three URLs and 100 requests give 99 requests, the URLs taken in turn |
| BatchFetch.SimulateHighLoad | q2commune_noparallel.py:42-59 | one fetch per expanded URL, request `i` going to `urls[i % len(urls)]` |
| PokeInfo.GetPokemonData | web/pages/poke_info.py:4-11 | the record exactly when the status is 200, None otherwise |
| PokeInfo.GetPokemonDataIsFetch | web/pages/poke_info.py:4-11 | `get_pokemon_data` classifies a response as `fetch` does: the body iff the status is 200 |
| PokeInfo.DisplayPokemonStats | web/pages/poke_info.py:13-39 | None iff the lookup failed; otherwise the header and four lines holding the base stats at positions 0, 1, 2 and 5 |
| PokeInfo.PositionsMatchNames | web/pages/poke_info.py:18-20 | on a list in the API's stat order, positions 0, 1 and 2 give what the battle simulator's by-name reading gives for hp, attack and defense |
| PokeInfo.ComparePokemon | web/pages/poke_info.py:41-73 | None unless both lookups succeeded, else three lines; each of the hp and attack lines credits the first Pokémon iff its value is strictly larger, credits the second on a tie, and the credited value is never the smaller |
| PokeInfo.Found | web/pages/poke_info.py:89-92 | the number of successful lookups is at most the list's length, and 0 iff none succeeded |
| PokeInfo.HpSum | web/pages/poke_info.py:86-92 | the hp total of the found Pokémon; 0 when none was found |
| PokeInfo.HpSumBounds | web/pages/poke_info.py:86-92 | when every found hp lies in `[lo, hi]`, the hp total lies between `lo` and `hi` times the number found |
| PokeInfo.AverageWithin | web/pages/poke_info.py:94-95 | the reported average lies between the smallest and the largest hp found |
| PokeInfo.CalculateTypeStats | web/pages/poke_info.py:75-114 | one error line when the type lookup fails; one "none found" line when no Pokémon was found; otherwise the header, the number found and the exact average of their `stats[0]` hp |

## Left out

- The Streamlit pages and every `st.*` block: they are rendering glue.
- The concurrent variants q2commune.py and q3commune.py are not part of this model. They are `asyncio`/aiohttp concurrency inside libraries, and q3commune.py adds a `cachetools` TTL cache. Their URL expansion is the one modelled in `BatchFetch.Expand`.
- `requests.get` and `response.json()` are inputs. `time.sleep` is recorded as a list of durations. `print` and the elapsed time measured by `time.time()` in `simulate_high_load` are not modelled.
- The JSON file load and save in own_poke.py and the Flask routing are not modelled: they are file I/O and a web framework. The store operations are methods of `PokeStore.Store` instead. `returnAll` and the `/` test route return the list or a constant unchanged and are not modelled.
- `request.json` being None (a non-JSON request body) is not modelled. The add request is always a body with four optional keys.
- Every 200 body parses. A malformed JSON body is not modelled, so neither is the exception that `fetch` catches for it.
- A `Retry-After` header is a natural number of seconds. The HTTP-date form of section 10.2.3 of RFC 9110 makes `int(...)` raise `ValueError` in the source; it is not modelled. Neither is a negative or fractional `backoff_factor`.
- The module-level example call at the top of poke_fight.py is a network side effect at import and is not modelled.
- Battle.Pokemon.constructor: takes the fetched stats list as a parameter. The source fetches it with `robust_api_call` and crashes on a `None` payload; that crash is not modelled.
- Battle.SimulateBattle: requires two distinct Pokémon objects. Fighting a Pokémon against itself, where both strikes hit the same `hp` field, is not modelled.
- Battle.Damage: the source computes in floating point. The model uses exact reals with explicit truncation toward zero, which agrees with Python for stats small enough to be exact in a float.
- PokeInfo.CalculateTypeStats: the average is the exact rational `total_hp / count`. The `:.2f` rounding of the printed line is not modelled.
- PokeInfo.DisplayPokemonStats: requires a present record to list at least six stats, and PokeInfo.ComparePokemon at least two. The source raises `IndexError` on shorter lists. Likewise PokeInfo.CalculateTypeStats requires every found Pokémon to list an hp entry.
- PokeInfo.DisplayPokemonStats: `if data:` also rejects an empty JSON object. A present record is never empty here.
- PokeInfo.GetPokemonData: the source's `requests.get` calls in `get_pokemon_data` and in the type lookup of `calculate_type_stats` catch nothing. A connection error or timeout there escapes `display_pokemon_stats`, `compare_pokemon` and `calculate_type_stats`, and can abort the type loop halfway. The lookups here are answered requests only, so that exception path is not modelled.
- BatchFetch.SimulateHighLoad: requires a non-empty URL list, and so does BatchFetch.Expand. On an empty list the source's `total_requests // len(urls)` raises `ZeroDivisionError`, which is not modelled.
- PokeStore.Store.AddOne: `key in rq` counts a key whose JSON value is `null` as present, and the source then stores `None`. Here `None` stands for an absent key, so a null-valued key gets "Missing data" instead. Values of other JSON types are not modelled either: the name is a string and the stats are integers.
- Log and report lines are structured values. Their French text, the f-string formatting and `.capitalize()` of names are not modelled.
