# Flight price alert — a Dafny model

The alert script (`bot_definitivo.py`) is a one-shot job. It asks the Amadeus flight-offers
API for round trips over a grid:

- every departure day from `today + START_IN_DAYS` to `RANGE_DAYS` later, `STEP_DAYS` apart;
- every trip length from `DUR_MIN` to `DUR_MAX` days;
- every destination.

For each answer it keeps the cheapest offer if that offer is within `MAX_PRICE`. Over the
whole grid it keeps the first cheapest candidate. It then saves that candidate and sends a
Telegram alert when no best total was stored by a previous run, or when the candidate is
strictly cheaper than the stored one.

This project models that core in Dafny and proves what it promises:

- `wrappers.dfy` (module `Wrappers`): an `Option` type.
- `text.dfy` (module `Text`):
  - Python's `str.strip()` with its white-space set;
  - ASCII `upper()`/`lower()`;
  - the code-point order `sorted` uses, proved a strict total order;
  - `", ".join` and `str(n)`.
- `offers.dfy` (module `Offers`):
  - `pick_cheapest_offer` as a function;
  - `extract_airlines` as a method with its two nested loops, proved equal to a
    specification function;
  - `format_airlines` as a method with its loop, proved equal to a specification function,
    with the airline-name lookup passed in as a function.
- `amadeus.dfy` (module `AmadeusClient`):
  - `base_url`;
  - the `Amadeus` client as a class whose fields `token`, `tokenExp` and `airlineNameCache`
    its methods update;
  - `_token_valid`, `get_token`, the retry loop of `request` (with a ghost trace of the
    attempts) and the memoised `airline_name`;
  - a value-level account of the token and of a whole `request` call (`TokenState`, `Fetch`,
    `AttemptStep`, `Run`), against which the methods are proved: a call's result, the token
    it leaves and its attempts are all determined by the token held and the environments.
- `search.dfy` (module `PriceAlert`):
  - the three nested search loops of `main` as methods, proved equal to a fold over the grid
    of queries;
  - the choice of the best candidate, proved to be the first candidate of least total;
  - the improve/save/send decision, with its lemmas.

The network and the clock are parameters:

- The airline lookup, the token exchange and the API reply of each attempt come from an
  `AttemptEnv` per attempt, which includes that attempt's clock reading.
- The flight search of one query is a function `fetch`. It gives None for "no response" or
  "response not ok", and the offers of `data` otherwise.

Dates are day numbers. Prices are integers in a fixed smallest unit of the currency (cents,
say), with `MAX_PRICE` and the stored best in the same unit.

Some quirks of the source are modelled as written and stated as lemmas:

- `Offers.BlankValidatingCodeHidesCarriers`: the `if c` filter in `extract_airlines` runs
  before stripping. So a validating code made only of white space, anywhere in the list,
  survives as an empty code. It then hides the carriers, and as the only code it gives an
  empty airline line.
- `AmadeusClient.BlankBusinessNameHidesCommonName`: the `or` chain in `airline_name` picks a
  `businessName` made only of white space over whatever `commonName` and `name` follow, and
  then finds no name.

## Model

| member | source | states |
|---|---|---|
| Text.StripTrims | bot_definitivo.py:214 | `strip()` leaves a slice `s[i..j]` of the input with only white space before `i` and from `j` on |
| Text.StripSpec | bot_definitivo.py:214 | `strip()` leaves a slice of the input with only white space cut off each end, whose first and last characters are not white space, empty exactly when the input was all white space |
| Text.NormalizeSpec | bot_definitivo.py:172 | `(s or "").strip().upper()` is the upper-cased slice of the input left once white space is cut off each end; it is stripped with no lower-case letter, empty exactly when the input was all white space |
| Text.NormalizeIdempotent | bot_definitivo.py:172 | normalising an already normalised code (as `airline_name` does with codes from `extract_airlines`) changes nothing |
| Text.UpperSpec | bot_definitivo.py:214 | `upper()` keeps length and stripped ends, leaves no lower-case letter, and is the identity on a string that has none |
| Text.LessIrreflexive | bot_definitivo.py:217 | the string order used by `sorted` is irreflexive |
| Text.LessTransitive | bot_definitivo.py:217 | the string order used by `sorted` is transitive |
| Text.LessTotal | bot_definitivo.py:217 | any two distinct strings are ordered one way or the other |
| Text.LessAsymmetric | bot_definitivo.py:217 | no two strings are each below the other |
| Text.NatToString | bot_definitivo.py:232 | `str(n)` is a non-empty string of decimal digits that denotes `n`, "0" exactly for zero and with no leading zero otherwise |
| Offers.CheapestIndex | bot_definitivo.py:204 | the left-to-right scan of `min` ends at an offer of least total with every earlier offer strictly dearer |
| Offers.PickCheapestOffer | bot_definitivo.py:200-206 | None exactly for an empty list or when some total cannot be read; otherwise the first offer of least total |
| Offers.PositionsFromSpec | bot_definitivo.py:217 | the positions listed are exactly those of the non-empty entries, ascending |
| Offers.CodesAtIndex | bot_definitivo.py:217 | the codes at a list of positions are, one for one, the normalised entries at those positions |
| Offers.ValidatingCodesFrom | bot_definitivo.py:217 | the comprehension over a suffix of the list gives the normalised entries at the non-empty positions of that suffix |
| Offers.ValidatingCodesSpec | bot_definitivo.py:209-217 | the validating codes are the non-empty entries, in input order, each stripped and upper-cased: entry `k` is the normalised entry at the `k`-th non-empty position, every non-empty entry is kept, and each code is normalised |
| Offers.ValidatingCodesConcat | bot_definitivo.py:217 | the validating codes keep their input order: the codes of a concatenation are the concatenation of the codes |
| Offers.CarrierSetNormalized | bot_definitivo.py:212-216 | every collected carrier code is non-empty, stripped and upper-case |
| Offers.SegmentCodesStep | bot_definitivo.py:213-216 | one more segment adds its normalised code to the set exactly when that code is non-empty |
| Offers.CarrierSetStep | bot_definitivo.py:212-216 | one more itinerary adds exactly the codes of its segments |
| Offers.LeastExists | bot_definitivo.py:217 | every non-empty set of codes has a least element |
| Offers.SortedCodes | bot_definitivo.py:217 | `sorted(carriers)` is strictly ascending and holds exactly the elements of the set, each once |
| Offers.AirlinesOfSpec | bot_definitivo.py:209-217 | the carriers of an offer are strictly ascending, non-empty, normalised and exactly the codes found on its segments; the validating codes are, in order, the non-empty validating entries normalised |
| Offers.ExtractAirlines | bot_definitivo.py:209-217 | the nested loops compute exactly `AirlinesOf(offer)` |
| Offers.FormatAirlines | bot_definitivo.py:220-233 | the loop computes exactly the specified line: validating codes (or carriers when there are none), the first five labelled, an overflow marker, "N/D" when empty |
| Offers.AirlinePartsShape | bot_definitivo.py:224-232 | one label per code among the first five, in order, then `+k más` for the `k` codes left out; shown plus hidden is all codes |
| Offers.OnlyFirstFiveLookedUp | bot_definitivo.py:224-225 | names of codes past the fifth never affect the line |
| Offers.JoinHoldsSeparator | bot_definitivo.py:233 | joining two or more parts puts the separator right after the first part |
| Offers.NotAvailableLine | bot_definitivo.py:233 | the line is "N/D" exactly when there is no code, or the only code is itself shown as "N/D" |
| Offers.BlankValidatingCodeHidesCarriers | bot_definitivo.py:217-222 | a non-empty validating entry of white space anywhere in the list passes `if c` and becomes an empty code, so the validating list hides the carriers; as the only entry, with no name for it, it yields an empty line |
| AmadeusClient.BaseUrlIgnoresCase | bot_definitivo.py:45-46 | the host is the production host or the test host, and the letter case of the environment name does not matter |
| AmadeusClient.RequestOutcome | bot_definitivo.py:130-157 | `request` returns None exactly when the last allowed attempt raised; otherwise it returns the last status, which is either not retried or from the last allowed attempt |
| AmadeusClient.PersistentFailure | bot_definitivo.py:149-157 | when every attempt raises, all `retries` attempts are made and the result is None |
| AmadeusClient.StopsAtFirstNotRetried | bot_definitivo.py:130-147 | the call stops exactly at the first attempt whose reply is not retried |
| AmadeusClient.PolicyDeterministic | bot_definitivo.py:130-157 | two calls that meet the same replies make the same number of attempts and return the same result |
| AmadeusClient.NameFromResponseSpec | bot_definitivo.py:180-194 | a name read from the lookup is non-empty and stripped; there is one exactly for an ok response whose first record's first non-empty name is not all white space |
| AmadeusClient.BlankBusinessNameHidesCommonName | bot_definitivo.py:189-190 | in an ok response, a first record whose `businessName` is non-empty white space gives no name, whatever its `commonName` and `name` |
| AmadeusClient.RunRetried | bot_definitivo.py:130-155 | a retried attempt is followed by the rest of the call, from the token state it hands over (cleared after a 401) |
| AmadeusClient.RunEnds | bot_definitivo.py:130-147 | an attempt that is not retried ends the call with its verdict and the token state it left |
| AmadeusClient.RunStops | bot_definitivo.py:130-157 | from any attempt on, every attempt but the last is retried, the last is not, no more attempts are made than remain, and the result is the verdict of the last |
| AmadeusClient.RunFaithful | bot_definitivo.py:99-157 | each attempt ends as its environment says; the first fetches a token exactly when the one held is not valid; an attempt after a retried 401 fetches a token |
| AmadeusClient.RunTrace | bot_definitivo.py:126-157 | a call with `retries > 0` makes a valid run of attempts and returns its verdict; with `retries <= 0` it makes none, returns None and keeps the token |
| AmadeusClient.ValidTokenIsReused | bot_definitivo.py:99-132 | while the token held stays valid and no 401 comes, no attempt fetches a token, each ends with its API reply, and the token state is unchanged |
| AmadeusClient.Amadeus.constructor | bot_definitivo.py:91-97 | the host comes from `base_url`, with no token, expiry 0 and an empty name cache |
| AmadeusClient.Amadeus.GetToken | bot_definitivo.py:99-121 | a token that `_token_valid` (a non-empty token with more than 30 seconds left, `TokenValid`) accepts is returned untouched; otherwise the exchange's token and `now + expires_in` (900 by default) are stored, or the failure leaves the state as it was |
| AmadeusClient.Amadeus.Attempt | bot_definitivo.py:132 | one attempt is `AttemptStep` from the token held: it fetches a token when the stored one is not valid, raises without calling the API when that fetch fails, and leaves the token state `Fetch` gives |
| AmadeusClient.Amadeus.Request | bot_definitivo.py:126-157 | the result, the token left and the attempts made are those of `Run` from the token held; so the attempts form a valid retry trace, each faithful to its environment; the result is the trace's verdict; the first attempt refreshes exactly when the token was not valid; after a 401 the next attempt refreshes; no attempt is made for `retries <= 0` |
| AmadeusClient.Amadeus.AirlineName | bot_definitivo.py:171-194 | an empty code gives None and changes nothing; a cached code gives its cached value with no request; otherwise at most three attempts are made, as `Run` says, with the token left as `Run` says, and the name read (or None) is cached under the normalised code; a name returned is non-empty and stripped on every path; the cache stays well-formed |
| PriceAlert.DestQueriesMembers | bot_definitivo.py:307 | the destination loop queries exactly the given destinations for one day and length |
| PriceAlert.DurationQueriesMembers | bot_definitivo.py:303-307 | the length loop queries exactly the lengths `DUR_MIN..DUR_MAX` |
| PriceAlert.GridFromMembers | bot_definitivo.py:299-362 | from a departure day on, exactly the days a whole number of steps later, not before it and not past the end date, are queried |
| PriceAlert.GridMembers | bot_definitivo.py:299-362 | a query is made exactly for departure days `start + i * STEP_DAYS` from the start date up to the end date, every length in range and every destination; none when the range is negative |
| PriceAlert.DestQueriesLength | bot_definitivo.py:307 | the destination loop makes one query per destination position |
| PriceAlert.DurationQueriesLength | bot_definitivo.py:303-307 | the length loop makes `DUR_MAX - duration + 1` rounds (none when `duration > DUR_MAX`) of one query per destination position |
| PriceAlert.GridFromLength | bot_definitivo.py:299-362 | from a departure day on, the loops make `(end - dep) / STEP_DAYS + 1` rounds (none past the end date) of one query per trip length and destination position |
| PriceAlert.GridSize | bot_definitivo.py:297-362 | a run makes exactly `DepartureDays * TripLengths * len(destinations)` queries: one per departure day, trip length and destination position, so that with distinct destinations and `GridMembers` no query is made twice |
| PriceAlert.BestOfSnoc | bot_definitivo.py:347-348 | the running best after one more candidate is the old best unless the candidate is strictly cheaper |
| PriceAlert.BestIsFirstMinimum | bot_definitivo.py:347-348 | the final best is None exactly when there is no candidate, otherwise the first candidate of least total |
| PriceAlert.CandidatesFromQueries | bot_definitivo.py:330-345 | every candidate is within `MAX_PRICE`, returns `duration` days after leaving, and comes from a query of the list; conversely every query that gives a candidate contributes it |
| PriceAlert.BestOfAppend | bot_definitivo.py:347-348 | the best after two runs of candidates is the best after the second run, started from the best of the first |
| PriceAlert.CandidatesAppend | bot_definitivo.py:311-345 | the candidates of two lists of queries are the candidates of each, in order |
| PriceAlert.BestAfterAppend | bot_definitivo.py:299-362 | searching two lists of queries is searching the first and then the second |
| PriceAlert.ConsiderFirst | bot_definitivo.py:307-348 | searching a query and then the rest is considering that query and then searching the rest |
| PriceAlert.TripBestIsBestOf | bot_definitivo.py:307-360 | the destination loop's fold equals the best over the candidates of its queries |
| PriceAlert.DayBestIsBestOf | bot_definitivo.py:303-360 | the length loop's fold equals the best over the candidates of its queries |
| PriceAlert.GridBestIsBestOf | bot_definitivo.py:299-362 | the departure loop's fold equals the best over the candidates of the grid |
| PriceAlert.Visit | bot_definitivo.py:311-348 | one query: skipped when there is no ok response, no cheapest offer, an unreadable total or a total above the ceiling; otherwise its candidate replaces the best when strictly cheaper |
| PriceAlert.Search | bot_definitivo.py:299-362 | the three nested loops end with the best over the candidates of the whole grid, in grid order |
| PriceAlert.DecideSpec | bot_definitivo.py:364-389 | nothing is saved or sent without a candidate; with one it is saved and sent exactly when no best was stored or it is strictly cheaper; a tie is not sent |
| PriceAlert.StoredBestNeverIncreases | bot_definitivo.py:368-385 | once a best is stored, it is never replaced by a higher one |
| PriceAlert.NoRepeatedAlert | bot_definitivo.py:368-389 | a second run that finds the same best sends no alert |
| PriceAlert.RunOnce | bot_definitivo.py:297-389 | one run stores the decided best and sends an alert, holding the best and its airline line, exactly when the best improves on the stored one |
| PriceAlert.AlertIsCheapestInGrid | bot_definitivo.py:297-389 | an alert is only ever about the first cheapest candidate of the grid, within the ceiling and strictly below the stored best; no query of the grid gives a cheaper candidate |

## Left out

- Network I/O is not modelled: HTTP requests, JSON decoding and the Telegram message. The
  API answers and the flight search are parameters (`AttemptEnv`, `fetch`, `Body`).
- `telegram_send` and the text of the alert message are not modelled. `RunOnce` returns the
  best candidate and its airline line instead of the message.
- The state file is not modelled: `state_load`, `state_save`, and the JSON written with an
  `updated_at` time stamp. The stored best is an `Option<int>` passed in and returned.
- Configuration loading is not modelled: `load_env`, `env_str`, `env_int`, `env_float`, the
  parsing of `DESTINATIONS`, and the `RuntimeError` raised when the Amadeus credentials are
  missing. The search takes a `Config` whose destinations are already parsed.
- Logging is not modelled, and neither are `time.sleep` nor the random back-off jitter: they
  do not change any result.
- Prices are integers in the currency's smallest unit, not floats: `float(...)` parsing is
  an `Option<int>` total, None when reading it raises; float rounding is not modelled.
- Dates are day numbers: `strftime` formatting is left out.
- `upper()` and `lower()` are modelled on ASCII letters only; Unicode case mapping is not
  modelled.
- Exceptions the source does not catch are not modelled: a token answer without
  `access_token`, a non-integer `expires_in`, `r.json()` failing in the search, and a stored
  best that is not a number.
- `flight_offers` is the `fetch` parameter. The offer fields that only pass through
  (currency, origin, adults, max results) are not modelled.
- PriceAlert.Search: the client's token state is not threaded through the searches, since
  `fetch` abstracts each flight-offers request.
- PriceAlert.Search: requires `stepDays > 0` or `rangeDays < 0` (`Ends`). With a negative
  range the loop is never entered, whatever the step. Otherwise, a step of zero makes the
  source's departure loop run forever, and a negative step walks back until the date type
  overflows and raises `OverflowError`; neither is modelled.
- AmadeusClient.Amadeus.Request: time advances only through the clock reading given for each
  attempt.
