# Weather lookup with failover and a stale-fallback cache, in Dafny

This project models the policy core of a small Go weather service. The
service answers `GET /v1/weather?city=…` by consulting an in-memory cache,
then a list of upstream weather providers in priority order, then stale
cached data, and finally reports 502.

Two pieces of the service are modelled:

- **The TTL cache** (`cache.dfy`, module `Cache`). `Memory` is a class with
  a `data` map from city key to `Entry(val, createdAt)` and a constant
  `ttl`. A ghost `history` records every `Set`, and `Valid()` ties `data`
  to the replay of that history. `GetFresh` finds an entry only when
  `now - createdAt <= ttl`. `GetStale` finds it whatever its age. `Set`
  overwrites one key.
- **The request handler's decision sequence** (`handler.dfy`, module
  `HttpServer`). `HandleWeather` is a method over a `Memory` object:
  1. It normalises the city: an empty city becomes `"melbourne"`, then the
     name is lower-cased. It hands the key to `Lookup`, which does steps 2-4.
  2. It serves a fresh cache hit.
  3. Otherwise it walks the providers in order with a loop and stops at the
     first success. It rounds that reading, writes it to the cache and
     serves it.
  4. Otherwise it serves a stale entry, or answers 502.

  Both methods are proved against `Decide`, a function that gives the response,
  the number of providers invoked and the value written. The lemmas beside
  it state the policy.

Rounding to one decimal (`rounding.dfy`, module `Rounding`) is modelled
over exact reals. `model.dfy` holds the value types `Weather` and
`Measurement`. `wrappers.dfy` holds `Option`.

Clock readings are explicit integer parameters. `GetFresh` and `Set` take
`now`. `HandleWeather` takes `now` for its fresh lookup and `writeTime` for
the write that follows a provider's success. A provider is represented by
the `Outcome` it gives if it is invoked during the request: `Ok(measurement)`
or `Err`.

## Model

| member | source | states |
|---|---|---|
| `Cache.Memory.NewMemory` | backend_Test/internal/cache/cache.go:21-23 | a new cache has the given ttl, no entries and no writes |
| `Cache.Memory.GetFresh` | backend_Test/internal/cache/cache.go:25-36 | found exactly when the key has an entry whose age `now - createdAt` is at most ttl, i.e. the last write to the key is that recent; then the stored value, otherwise the zero weather; the map is not modified |
| `Cache.Memory.GetStale` | backend_Test/internal/cache/cache.go:38-47 | found exactly when the key was ever written, whatever the age; then the value of the last write, otherwise the zero weather; the map is not modified |
| `Cache.Memory.Set` | backend_Test/internal/cache/cache.go:49-53 | the key's entry becomes `(v, now)`, every other key is unchanged, and the write is appended to the history |
| `Cache.LastWriteIsLast` | backend_Test/internal/cache/cache.go:49-53 | the last write to a key is absent exactly when no write used the key; otherwise it is a write to that key with no later write to it |
| `Cache.ReplayIsLastWrite` | backend_Test/internal/cache/cache.go:49-53 | after any sequence of writes from a new cache, a key has an entry exactly when it was written, and the entry is the value and time of its last write |
| `Cache.StaleIffEverSet` | backend_Test/internal/cache/cache.go:38-53 | over any write sequence from a new cache, a stale lookup succeeds exactly when the key was written, and returns the value of the last such write |
| `Cache.FreshValue` | backend_Test/internal/cache/cache.go:25-36 | a fresh lookup finds what a stale lookup finds, and misses exactly when the key has no entry or its entry is older than ttl |
| `Cache.StaleValue` | backend_Test/internal/cache/cache.go:38-47 | a stale lookup finds the key exactly when it has an entry, of any age, and yields that entry's value |
| `Cache.NewCacheIsEmpty` | backend_Test/internal/cache/cache.go:21-47 | a `Memory` object just built by `NewMemory` answers not-found to both `GetFresh` and `GetStale`, for every ttl, key and time |
| `Cache.FreshnessBoundary` | backend_Test/internal/cache/cache.go:32-35 | an entry of age exactly ttl is fresh; one tick later a fresh lookup misses while a stale lookup still finds it |
| `Cache.ExpiryIsPermanent` | backend_Test/internal/cache/cache.go:32-35 | an entry that is not fresh at some time is not fresh at any later time |
| `Cache.SetThenGet` | backend_Test/internal/cache/cache.go:49-53 | after writing v at t, a stale lookup gives v and a fresh lookup at now gives v exactly when `now - t <= ttl` |
| `Cache.SetLeavesOtherKeys` | backend_Test/internal/cache/cache.go:52 | writing one key changes neither lookup of any other key |
| `Cache.SetSameValueRefreshes` | backend_Test/internal/cache/cache.go:52 | writing the same value again leaves the stale answer unchanged, and the fresh answer is then decided by the second write's time alone, whether or not the first had expired |
| `Rounding.TruncateTowardZero` | backend_Test/internal/httpserver/handler.go:93 | Go's float-to-int conversion: the integer within one of x on the side of zero |
| `Rounding.Round1AsWritten` | backend_Test/internal/httpserver/handler.go:92-94 | the code's rounding gives a whole number of tenths r; from -0.05 up `r - 0.05 <= f < r + 0.05`; below -0.05 `r - 0.15 < f <= r - 0.05`, i.e. biased up |
| `Rounding.Round1` | backend_Test/internal/httpserver/handler.go:92-94 | the half-up rounding the `+0.5` idiom aims at: a whole number of tenths r with `r - 0.05 <= f < r + 0.05` |
| `Rounding.Round1IsUnique` | backend_Test/internal/httpserver/handler.go:92-94 | any whole number of tenths within that half-open window is the rounded value |
| `Rounding.Round1KeepsTenths` | backend_Test/internal/httpserver/handler.go:92-94 | a value that already has one decimal is not changed by rounding |
| `Rounding.Round1AsWrittenAgreesOffNegatives` | backend_Test/internal/httpserver/handler.go:92-94 | the code's truncating rounding equals half-up rounding for every f >= -0.05 |
| `Rounding.Round1AsWrittenOnNegatives` | backend_Test/internal/httpserver/handler.go:92-94 | below -0.05 the code's rounding is half-up rounding plus a tenth, except when `f*10+0.5` is whole, where the two agree |
| `Rounding.Round1AsWrittenMisroundsNegatives` | backend_Test/internal/httpserver/handler.go:92-94 | the code rounds -2.0 to -1.9 and -2.26 to -2.2, where half-up rounding gives -2.0 and -2.3 |
| `Rounding.Round1Examples` | backend_Test/internal/httpserver/handler.go:92-94 | 20.849999 rounds to 20.8 and 20.85 rounds to 20.9 |
| `HttpServer.LowerChar` | backend_Test/internal/httpserver/handler.go:46 | the lower-cased character is never an upper-case letter; an upper-case letter becomes the lower-case letter at the same place in the alphabet; any other character is kept |
| `HttpServer.ToLower` | backend_Test/internal/httpserver/handler.go:46 | lower-casing keeps the length of the string |
| `HttpServer.ToLowerAt` | backend_Test/internal/httpserver/handler.go:46 | character i of the result is character i of the input, lower-cased |
| `HttpServer.ToLowerHasNoUpper` | backend_Test/internal/httpserver/handler.go:46 | the result has no upper-case letter |
| `HttpServer.ToLowerKeepsLowercase` | backend_Test/internal/httpserver/handler.go:46 | a string without upper-case letters is unchanged by lower-casing |
| `HttpServer.ToLowerIdempotent` | backend_Test/internal/httpserver/handler.go:46 | lower-casing twice equals lower-casing once |
| `HttpServer.DefaultCityIsLowercase` | backend_Test/internal/httpserver/handler.go:44-46 | lower-casing leaves the default city "melbourne" unchanged |
| `HttpServer.NormalizeCity` | backend_Test/internal/httpserver/handler.go:42-46 | the key is never empty; an empty city gives "melbourne"; any other city gives a key of the same length |
| `HttpServer.NormalizeCityHasNoUpper` | backend_Test/internal/httpserver/handler.go:42-46 | a key has no upper-case letter |
| `HttpServer.NormalizeCityLowercasesInPlace` | backend_Test/internal/httpserver/handler.go:46 | a named city keeps its characters, each lower-cased in place |
| `HttpServer.NormalizeCityIdempotent` | backend_Test/internal/httpserver/handler.go:42-46 | normalising a key again changes nothing |
| `HttpServer.NormalizeCityIgnoresCase` | backend_Test/internal/httpserver/handler.go:46 | cities of equal length whose characters agree after lower-casing, position by position, share one cache key |
| `HttpServer.DefaultCityKey` | backend_Test/internal/httpserver/handler.go:42-46 | both "" and "melbourne" map to the key "melbourne" |
| `HttpServer.StatusCode` | backend_Test/internal/httpserver/handler.go:76-82 | the status is 200 exactly for a weather response and 502 exactly for the failure response |
| `HttpServer.FirstSuccess` | backend_Test/internal/httpserver/handler.go:60-74 | the index of the first successful outcome, with every earlier outcome a failure; absent exactly when every outcome failed |
| `HttpServer.ToWeather` | backend_Test/internal/httpserver/handler.go:70 | wind speed comes from the measured wind and temperature from the measured temperature, each a whole number of tenths: the nearest one (ties up) from -0.05 up, and between 0.05 and 0.15 above the reading below -0.05 |
| `HttpServer.ToWeatherIsHalfUpOffNegatives` | backend_Test/internal/httpserver/handler.go:70 | for readings of at least -0.05 the served weather is the half-up rounding of each field |
| `HttpServer.NegativeReadingServedHigher` | backend_Test/internal/httpserver/handler.go:70 | a reading of -2 °C is served as -1.9 °C, where half-up rounding keeps -2.0 |
| `HttpServer.Decide` | backend_Test/internal/httpserver/handler.go:48-82 | at most every provider is invoked; a written value is the value served; a 502 writes nothing and carries "all providers unavailable" |
| `HttpServer.HandleWeather` | backend_Test/internal/httpserver/handler.go:40-83 | response, number of providers invoked and new cache state are those of `Decide` on the normalised city; the write, if any, is under that key at `writeTime`, and nothing else changes |
| `HttpServer.Lookup` | backend_Test/internal/httpserver/handler.go:48-82 | for a normalised key, the loop over providers gives exactly `Decide`'s response and invocation count; the cache changes only by `Decide`'s write, at `writeTime`; the cache invariant is kept |
| `HttpServer.FreshHitSkipsProviders` | backend_Test/internal/httpserver/handler.go:50-53 | a fresh hit is served with 200, no provider is invoked and the cache is not written |
| `HttpServer.FirstSuccessWins` | backend_Test/internal/httpserver/handler.go:60-74 | without a fresh hit, if provider i is the first to succeed then exactly i+1 providers are invoked, and its rounded reading is served and is the value written |
| `HttpServer.AllFailedFallsBackToStale` | backend_Test/internal/httpserver/handler.go:76-82 | when every provider fails (including when there are none), all are invoked, nothing is written, and the stale entry is served if one exists, else 502 "all providers unavailable" |
| `HttpServer.BadGatewayIff` | backend_Test/internal/httpserver/handler.go:76-82 | the status is 502 exactly when the key has no entry and every provider fails |
| `HttpServer.InvokedProvidersFormAPrefix` | backend_Test/internal/httpserver/handler.go:60-74 | the invoked providers are a prefix of the list in which all but the last failed; the cache is written exactly when the last invoked one succeeded |
| `HttpServer.ServedValueProvenance` | backend_Test/internal/httpserver/handler.go:50-80 | a 200 answer carries either the cached value with no write, or the rounded reading of a successful provider |
| `HttpServer.WrittenValueServedFresh` | backend_Test/internal/httpserver/handler.go:70-71 | a reading written at t answers every request for the same key at most ttl later, with no provider invoked |
| `HttpServer.WholeReadingServed` | backend_Test/internal/httpserver/handler.go:70 | a reading in whole degrees and km/h is served unchanged when not negative, and a tenth higher when negative |
| `HttpServer.FreshCacheThenProviderScenario` | backend_Test/internal/httpserver/handler_test.go:27-39 | the test's setup run on the `Memory` cache: on an empty cache, one provider reporting 20 °C and 30 km/h yields 200 {30, 20} (the test checks only this status); a second request within ttl, beyond the test, gets the same answer with no provider invoked |
| `HttpServer.FailoverAndStaleScenario` | backend_Test/internal/httpserver/handler_test.go:41-64 | the test's setup run on the `Memory` cache (ttl 10, entry {10, 15} written at 0, request at 20): the entry has expired, both failing providers are invoked and the stale entry is served with 200 |
| `HttpServer.FailoverTestTakesFreshPath` | backend_Test/internal/httpserver/handler_test.go:41-72 | on the test's own age-blind cache (a ttl no smaller than the entry's age) the seeded entry is a fresh hit: 200 with no provider invoked, so the test never reaches the provider loop or the stale fallback |
| `HttpServer.NoProvidersNoCacheScenario` | backend_Test/internal/httpserver/handler.go:82 | with no providers and an empty cache the answer is 502 |

## Findings

| source | as written | input that shows it | evidently intended | confidence | as-written member | corrected member |
|---|---|---|---|---|---|---|
| backend_Test/internal/httpserver/handler.go:92-94 | `float64(int(f*10+0.5)) / 10`: Go's `int` truncates toward zero, so for `f*10+0.5 < 0` the result is rounded up by a tenth | `round1(-2.0)` gives `int(-19.5)/10 = -1.9`; `round1(-2.26)` gives `-2.2` | half-up rounding to one decimal, `floor(f*10+0.5)/10`: adding 0.5 before dropping the fraction is the half-up idiom, which only floor completes for negative values; it keeps -2.0 and gives -2.3 for -2.26 | high (not executed) | `Rounding.Round1AsWritten` | `Rounding.Round1` |

`Rounding.Round1AsWrittenMisroundsNegatives` exhibits the discrepancy, and
`Rounding.Round1AsWrittenOnNegatives` describes it for every input below
-0.05: the result is a tenth too high unless `f*10+0.5` is whole.
`Rounding.Round1`, `Rounding.Round1IsUnique` and `Rounding.Round1KeepsTenths`
prove the intended half-up property of the corrected definition.
`Rounding.Round1AsWrittenAgreesOffNegatives` and
`HttpServer.ToWeatherIsHalfUpOffNegatives` show that the two roundings
coincide for every reading of at least -0.05. All wind speeds and
non-negative temperatures are in that range. The handler model follows the
code as written: `HttpServer.ToWeather` uses `Rounding.Round1AsWritten`, and
`HttpServer.NegativeReadingServedHigher` shows the effect on a served
temperature.

## Left out

- The test cache `tcache` (handler_test.go:67-72) is not modelled as a class. Its `GetFresh` ignores the entry's age, so in the failover-and-stale test the seeded entry is a fresh hit and neither failover nor the stale fallback is exercised; `HttpServer.FailoverTestTakesFreshPath` states this path. The two scenario methods run the tests' setups on the `Memory` cache instead.
- The `sync.RWMutex` in the cache and all concurrency between requests. The cache is single-threaded state, so the last-write-wins race between concurrent requests for one city is not modelled.
- `time.Now` and `time.Since`: replaced by explicit integer clock parameters. The model does not require the clock to be monotonic.
- Per-attempt `context.WithTimeout` deadlines and their cancellation (handler.go:56-57, 65-66). A timeout is one kind of provider failure, and so is an `Err` outcome.
- Provider calls: the city passed to a provider and the network behind it are not modelled. Each request takes the sequence of outcomes its providers would give.
- Provider names and `log.Printf`: logging only.
- Floating point: `float64` is modelled as exact reals. Binary representation error (for instance, 20.85 is not exact in `float64`) and overflow of Go's `int` conversion for huge values are not captured.
- `strings.ToLower` is modelled for ASCII letters only; Unicode case mapping is a library behaviour outside the model.
- `writeJSON`, the JSON encoding of `Weather`, `http.Error`, the `/healthz` route, `NewMux` and the `logging` middleware: HTTP and JSON I/O.
- The provider implementations (openweather.go, weatherstack.go), including the m/s to km/h factor 3.6: HTTP requests and JSON decoding. Their error handling collapses every failure into one error, which an `Err` outcome represents.
- Configuration loading (config.go) and process start-up (main.go): environment reading and `ListenAndServe`. The ttl is the constructor argument of `Memory`.
