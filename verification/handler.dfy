/**
  The decision sequence of `handleWeather`
  (backend_Test/internal/httpserver/handler.go): normalise the city, serve a
  fresh cache hit, otherwise try the providers in order until one succeeds
  and cache its rounded reading, otherwise serve a stale entry, otherwise
  answer 502.

  A provider is represented by the outcome it gives if it is invoked during
  this request; HTTP, JSON, logging and per-attempt deadlines are outside the
  model.
*/
module HttpServer {
  import opened Wrappers
  import opened Model
  import opened Cache
  import opened Rounding

  /** The city used when the request names none. */
  const DefaultCity: string := "melbourne"

  /** The body of the 502 response. */
  const AllProvidersUnavailable: string := "all providers unavailable"

  predicate IsUpper(c: char)
  {
    'A' <= c <= 'Z'
  }

  /** ASCII lower-casing of one character: 'A'..'Z' map to 'a'..'z' in order, all else is kept. */
  function LowerChar(c: char): (r: char)
    ensures !IsUpper(r)
    ensures !IsUpper(c) ==> r == c
    ensures IsUpper(c) ==> 'a' <= r <= 'z' && r as int - 'a' as int == c as int - 'A' as int
  {
    if IsUpper(c) then (c as int - 'A' as int + 'a' as int) as char else c
  }

  /** `strings.ToLower`, restricted to ASCII letters: every character lower-cased in place. */
  function ToLower(s: string): (r: string)
    ensures |r| == |s|
  {
    if s == [] then [] else [LowerChar(s[0])] + ToLower(s[1..])
  }

  /** Character i of the lower-cased string is character i of the input, lower-cased. */
  lemma {:induction false} ToLowerAt(s: string, i: nat)
    requires i < |s|
    ensures ToLower(s)[i] == LowerChar(s[i])
  {
    if i > 0 {
      ToLowerAt(s[1..], i - 1);
    }
  }

  /** A lower-cased string has no upper-case letter. */
  lemma ToLowerHasNoUpper(s: string)
    ensures forall i :: 0 <= i < |s| ==> !IsUpper(ToLower(s)[i])
  {
    forall i | 0 <= i < |s| {
      ToLowerAt(s, i);
    }
  }

  /** A string without upper-case letters is its own lower-case form. */
  lemma {:induction false} ToLowerKeepsLowercase(s: string)
    requires forall i :: 0 <= i < |s| ==> !IsUpper(s[i])
    ensures ToLower(s) == s
  {
    if s != [] {
      ToLowerKeepsLowercase(s[1..]);
    }
  }

  /** Lower-casing twice is lower-casing once. */
  lemma ToLowerIdempotent(s: string)
    ensures ToLower(ToLower(s)) == ToLower(s)
  {
    ToLowerHasNoUpper(s);
    ToLowerKeepsLowercase(ToLower(s));
  }

  /** The default city is already lower-case. */
  lemma DefaultCityIsLowercase()
    ensures ToLower(DefaultCity) == DefaultCity
  {
    ToLowerKeepsLowercase(DefaultCity);
  }

  /**
    The cache key and provider argument for a requested city: the default
    city when none is given, then lower-cased.
  */
  function NormalizeCity(city: string): (key: string)
    ensures |key| > 0
    ensures city == [] ==> key == DefaultCity
    ensures city != [] ==> |key| == |city|
  {
    var named := if city == [] then DefaultCity else city;
    DefaultCityIsLowercase();
    ToLower(named)
  }

  /** A cache key has no upper-case letter. */
  lemma NormalizeCityHasNoUpper(city: string)
    ensures forall i :: 0 <= i < |NormalizeCity(city)| ==> !IsUpper(NormalizeCity(city)[i])
  {
    ToLowerHasNoUpper(if city == [] then DefaultCity else city);
  }

  /** A named city keeps its characters, each lower-cased in place. */
  lemma NormalizeCityLowercasesInPlace(city: string, i: nat)
    requires i < |city|
    ensures NormalizeCity(city)[i] == LowerChar(city[i])
  {
    ToLowerAt(city, i);
  }

  /** Normalising a key again changes nothing. */
  lemma NormalizeCityIdempotent(city: string)
    ensures NormalizeCity(NormalizeCity(city)) == NormalizeCity(city)
  {
    ToLowerIdempotent(if city == [] then DefaultCity else city);
  }

  /** Cities that differ only in the case of their letters share one cache key. */
  lemma NormalizeCityIgnoresCase(a: string, b: string)
    requires |a| == |b|
    requires forall i :: 0 <= i < |a| ==> LowerChar(a[i]) == LowerChar(b[i])
    ensures NormalizeCity(a) == NormalizeCity(b)
  {
    forall i | 0 <= i < |a|
      ensures ToLower(a)[i] == ToLower(b)[i]
    {
      ToLowerAt(a, i);
      ToLowerAt(b, i);
    }
  }

  /** An empty city and an explicit "melbourne" share the key "melbourne". */
  lemma DefaultCityKey()
    ensures NormalizeCity("") == "melbourne"
    ensures NormalizeCity("melbourne") == "melbourne"
  {
    DefaultCityIsLowercase();
  }

  /** What provider number i gives if it is invoked: a measurement, or an error of any kind. */
  datatype Outcome = Ok(m: Measurement) | Err

  /** The handler's answer: 200 with a JSON weather body, or 502 with a text body. */
  datatype Response = Ok200(weather: Weather) | BadGateway(message: string)

  /** The HTTP status code sent with a response. */
  function StatusCode(r: Response): (code: int)
    ensures code == 200 <==> r.Ok200?
    ensures code == 502 <==> r.BadGateway?
  {
    match r
    case Ok200(_) => 200
    case BadGateway(_) => 502
  }

  /** The index of the first successful outcome, if any. */
  function FirstSuccess(outcomes: seq<Outcome>): (r: Option<nat>)
    ensures r.Some? ==> r.value < |outcomes| && outcomes[r.value].Ok?
    ensures r.Some? ==> forall j :: 0 <= j < r.value ==> outcomes[j].Err?
    ensures r.None? <==> forall j :: 0 <= j < |outcomes| ==> outcomes[j].Err?
  {
    if outcomes == [] then None
    else if outcomes[0].Ok? then Some(0)
    else match FirstSuccess(outcomes[1..])
      case Some(i) => Some(i + 1)
      case None => None
  }

  /**
    The weather served for a provider's measurement: wind speed from the
    measured wind and temperature from the measured temperature, each put
    through `round1` as written. Each field is a whole number of tenths,
    the nearest one (ties up) from -0.05 up, and between half a tenth and a
    tenth and a half above the reading below -0.05.
  */
  function ToWeather(m: Measurement): (w: Weather)
    ensures IsTenths(w.windSpeedKph) && IsTenths(w.temperatureCelsius)
    ensures -0.05 <= m.windKph ==> w.windSpeedKph - 0.05 <= m.windKph < w.windSpeedKph + 0.05
    ensures -0.05 <= m.tempC ==> w.temperatureCelsius - 0.05 <= m.tempC < w.temperatureCelsius + 0.05
    ensures m.windKph < -0.05 ==> w.windSpeedKph - 0.15 < m.windKph <= w.windSpeedKph - 0.05
    ensures m.tempC < -0.05 ==> w.temperatureCelsius - 0.15 < m.tempC <= w.temperatureCelsius - 0.05
  {
    Weather(Round1AsWritten(m.windKph), Round1AsWritten(m.tempC))
  }

  /** For readings of at least -0.05 the served weather is the half-up rounding of each field. */
  lemma ToWeatherIsHalfUpOffNegatives(m: Measurement)
    requires -0.05 <= m.windKph && -0.05 <= m.tempC
    ensures ToWeather(m) == Weather(Round1(m.windKph), Round1(m.tempC))
  {
    Round1AsWrittenAgreesOffNegatives(m.windKph);
    Round1AsWrittenAgreesOffNegatives(m.tempC);
  }

  /** A provider reporting -2 °C and no wind is served as -1.9 °C. */
  lemma NegativeReadingServedHigher()
    ensures ToWeather(Measurement(-2.0, 0.0)) == Weather(0.0, -1.9)
    ensures Round1(-2.0) == -2.0
  {
    Round1AsWrittenMisroundsNegatives();
    Round1AsWrittenAgreesOffNegatives(0.0);
    Round1KeepsTenths(0.0);
  }

  /**
    The result of one request: the response, how many providers were
    invoked, and the value written to the cache under the key, if any.
  */
  datatype Decision = Decision(resp: Response, invoked: nat, written: Option<Weather>)

  /**
    The handler's decision for `key` against the cache map `data` at `now`.
    At most every provider is invoked, a written value is the value served,
    and a 502 writes nothing and carries the fixed message.
  */
  function Decide(data: map<string, Entry>, ttl: int, key: string, outcomes: seq<Outcome>, now: int): (d: Decision)
    ensures d.invoked <= |outcomes|
    ensures d.written.Some? ==> d.resp == Ok200(d.written.value)
    ensures d.resp.BadGateway? ==> d.resp.message == AllProvidersUnavailable && d.written == None
  {
    match FreshValue(data, ttl, key, now)
    case Some(v) => Decision(Ok200(v), 0, None)
    case None =>
      match FirstSuccess(outcomes)
      case Some(i) =>
        var out := ToWeather(outcomes[i].m);
        Decision(Ok200(out), i + 1, Some(out))
      case None =>
        match StaleValue(data, key)
        case Some(v) => Decision(Ok200(v), |outcomes|, None)
        case None => Decision(BadGateway(AllProvidersUnavailable), |outcomes|, None)
  }

  /**
    Serves one weather request. `outcomes[i]` is what provider i returns if
    invoked; `now` is the clock at the fresh lookup and `writeTime` the clock
    when a provider's reading is written to the cache.
  */
  method HandleWeather(cache: Memory, city: string, outcomes: seq<Outcome>, now: int, writeTime: int)
    returns (resp: Response, invoked: nat)
    requires cache.Valid()
    modifies cache
    ensures cache.Valid()
    ensures var key := NormalizeCity(city);
      var d := Decide(old(cache.data), cache.ttl, key, outcomes, now);
      && resp == d.resp
      && invoked == d.invoked
      && cache.data == (if d.written.Some? then old(cache.data)[key := Entry(d.written.value, writeTime)] else old(cache.data))
      && cache.history == old(cache.history) + (if d.written.Some? then [Write(key, d.written.value, writeTime)] else [])
  {
    var key := NormalizeCity(city);
    resp, invoked := Lookup(cache, key, outcomes, now, writeTime);
  }

  /**
    The lookup for an already-normalised key: a fresh hit, else the
    providers in order until the first success, whose rounded reading is
    cached and served, else the stale entry, else 502.
  */
  method Lookup(cache: Memory, key: string, outcomes: seq<Outcome>, now: int, writeTime: int)
    returns (resp: Response, invoked: nat)
    requires cache.Valid()
    modifies cache
    ensures cache.Valid()
    ensures var d := Decide(old(cache.data), cache.ttl, key, outcomes, now);
      && resp == d.resp
      && invoked == d.invoked
      && cache.data == (if d.written.Some? then old(cache.data)[key := Entry(d.written.value, writeTime)] else old(cache.data))
      && cache.history == old(cache.history) + (if d.written.Some? then [Write(key, d.written.value, writeTime)] else [])
  {
    ghost var data0, history0 := cache.data, cache.history;
    var v, ok := cache.GetFresh(key, now);
    if ok {
      FreshHitSkipsProviders(data0, cache.ttl, key, outcomes, now);
      assert history0 + [] == history0;
      return Ok200(v), 0;
    }
    invoked := 0;
    while invoked < |outcomes|
      invariant invoked <= |outcomes|
      invariant forall j :: 0 <= j < invoked ==> outcomes[j].Err?
      invariant cache.data == data0 && cache.history == history0
    {
      var outcome := outcomes[invoked];
      invoked := invoked + 1;
      if outcome.Err? {
        continue;
      }
      var out := ToWeather(outcome.m);
      cache.Set(key, out, writeTime);
      FirstSuccessWins(data0, cache.ttl, key, outcomes, now, invoked - 1);
      return Ok200(out), invoked;
    }
    AllFailedFallsBackToStale(data0, cache.ttl, key, outcomes, now);
    assert history0 + [] == history0;
    v, ok := cache.GetStale(key);
    if ok {
      return Ok200(v), invoked;
    }
    return BadGateway(AllProvidersUnavailable), invoked;
  }

  /** A fresh hit is served as it is: no provider is invoked and nothing is written. */
  lemma FreshHitSkipsProviders(data: map<string, Entry>, ttl: int, key: string, outcomes: seq<Outcome>, now: int)
    requires FreshValue(data, ttl, key, now).Some?
    ensures Decide(data, ttl, key, outcomes, now) == Decision(Ok200(FreshValue(data, ttl, key, now).value), 0, None)
  {
  }

  /**
    Without a fresh hit, the first provider that succeeds decides the
    response: providers 0..i are invoked, no later one is, and exactly the
    served value is written.
  */
  lemma FirstSuccessWins(data: map<string, Entry>, ttl: int, key: string, outcomes: seq<Outcome>, now: int, i: nat)
    requires FreshValue(data, ttl, key, now) == None
    requires i < |outcomes| && outcomes[i].Ok?
    requires forall j :: 0 <= j < i ==> outcomes[j].Err?
    ensures Decide(data, ttl, key, outcomes, now) ==
      Decision(Ok200(ToWeather(outcomes[i].m)), i + 1, Some(ToWeather(outcomes[i].m)))
  {
    assert FirstSuccess(outcomes).Some?;
  }

  /**
    When every provider fails (none at all included), all are invoked,
    nothing is written, and the stale entry is served if there is one,
    otherwise 502.
  */
  lemma AllFailedFallsBackToStale(data: map<string, Entry>, ttl: int, key: string, outcomes: seq<Outcome>, now: int)
    requires FreshValue(data, ttl, key, now) == None
    requires forall j :: 0 <= j < |outcomes| ==> outcomes[j].Err?
    ensures Decide(data, ttl, key, outcomes, now).invoked == |outcomes|
    ensures Decide(data, ttl, key, outcomes, now).written == None
    ensures Decide(data, ttl, key, outcomes, now).resp ==
      if key in data then Ok200(data[key].val) else BadGateway(AllProvidersUnavailable)
  {
  }

  /** The request fails with 502 exactly when the key was never cached and every provider fails. */
  lemma BadGatewayIff(data: map<string, Entry>, ttl: int, key: string, outcomes: seq<Outcome>, now: int)
    ensures StatusCode(Decide(data, ttl, key, outcomes, now).resp) == 502 <==>
      key !in data && forall j :: 0 <= j < |outcomes| ==> outcomes[j].Err?
  {
  }

  /**
    Providers are invoked as a prefix of the list: every invoked provider
    but the last failed, and the cache is written exactly when the last
    invoked one succeeded.
  */
  lemma InvokedProvidersFormAPrefix(data: map<string, Entry>, ttl: int, key: string, outcomes: seq<Outcome>, now: int)
    ensures var d := Decide(data, ttl, key, outcomes, now);
      && (forall j :: 0 <= j < d.invoked - 1 ==> outcomes[j].Err?)
      && (d.written.Some? <==> d.invoked > 0 && outcomes[d.invoked - 1].Ok?)
  {
  }

  /**
    A 200 response carries either the value cached under the key (and then
    nothing is written) or the rounded reading of some provider.
  */
  lemma ServedValueProvenance(data: map<string, Entry>, ttl: int, key: string, outcomes: seq<Outcome>, now: int)
    requires Decide(data, ttl, key, outcomes, now).resp.Ok200?
    ensures var d := Decide(data, ttl, key, outcomes, now);
      || (key in data && d.resp.weather == data[key].val && d.written == None)
      || (exists i :: 0 <= i < |outcomes| && outcomes[i].Ok? && d.resp.weather == ToWeather(outcomes[i].m))
  {
  }

  /** A reading written at `t` answers every request for the same key at most `ttl` later, with no provider invoked. */
  lemma WrittenValueServedFresh(data: map<string, Entry>, ttl: int, key: string, outcomes: seq<Outcome>, now: int,
                                t: int, later: seq<Outcome>, now2: int)
    requires Decide(data, ttl, key, outcomes, now).written.Some?
    requires now2 - t <= ttl
    ensures var w := Decide(data, ttl, key, outcomes, now).written.value;
      Decide(data[key := Entry(w, t)], ttl, key, later, now2) == Decision(Ok200(w), 0, None)
  {
  }

  /**
    A reading in whole units is served unchanged when it is not negative,
    and a tenth higher when it is.
  */
  lemma WholeReadingServed(temp: int, wind: int)
    ensures ToWeather(Measurement(temp as real, wind as real)) ==
      Weather(if 0 <= wind then wind as real else wind as real + 0.1,
              if 0 <= temp then temp as real else temp as real + 0.1)
  {
    WholeUnitsServed(temp);
    WholeUnitsServed(wind);
  }

  lemma WholeUnitsServed(n: int)
    ensures Round1AsWritten(n as real) == if 0 <= n then n as real else n as real + 0.1
  {
    assert (n as real) * 10.0 == (n * 10) as real;
    Round1KeepsTenths(n as real);
    if n < 0 {
      Round1AsWrittenOnNegatives(n as real);
      assert (n as real + 0.05) * 10.0 == (n * 10) as real + 0.5;
      assert ((n * 10) as real + 0.5).Floor == n * 10;
    } else {
      Round1AsWrittenAgreesOffNegatives(n as real);
    }
  }

  /**
    The setup of the fresh-cache-then-provider handler test, run on the
    `Memory` cache: ttl 3000, nothing cached, one provider reporting 20 °C
    and 30 km/h. The request for melbourne is answered 200 with
    {wind 30, temperature 20}, which is cached. The test checks only that
    first status; the second request, 1000 ticks later, goes beyond it and
    gets the same answer from the cache without invoking the provider.
  */
  method FreshCacheThenProviderScenario() returns (first: Response, second: Response, calls: nat)
    ensures first == Ok200(Weather(30.0, 20.0))
    ensures second == first && calls == 0
  {
    var city := "melbourne";
    var out := Weather(30.0, 20.0);
    var provider := [Ok(Measurement(20.0, 30.0))];
    DefaultCityKey();
    WholeReadingServed(20, 30);
    assert FirstSuccess(provider) == Some(0);
    var cache := new Memory.NewMemory(3000);
    var n;
    first, n := HandleWeather(cache, city, provider, 0, 0);
    assert cache.data == map[city := Entry(out, 0)];
    assert FreshValue(cache.data, 3000, city, 1000) == Some(out);
    second, calls := HandleWeather(cache, city, provider, 1000, 1000);
  }

  /**
    The setup of the failover-and-stale handler test, run on the `Memory`
    cache: ttl 10, an entry {wind 10, temperature 15} written at 0, two
    providers that both fail, and a request at 20. The entry has expired,
    so both providers are invoked and the stale entry is served with 200.
  */
  method FailoverAndStaleScenario() returns (resp: Response, calls: nat)
    ensures StatusCode(resp) == 200 && resp == Ok200(Weather(10.0, 15.0))
    ensures calls == 2
  {
    var city := "melbourne";
    var stale := Weather(10.0, 15.0);
    var providers := [Err, Err];
    DefaultCityKey();
    assert FirstSuccess(providers) == None;
    var cache := new Memory.NewMemory(10);
    cache.Set(city, stale, 0);
    assert FreshValue(cache.data, 10, city, 20) == None;
    assert StaleValue(cache.data, city) == Some(stale);
    resp, calls := HandleWeather(cache, city, providers, 20, 20);
  }

  /**
    The failover-and-stale test as it runs: its own cache finds every
    stored entry on a fresh lookup, whatever its age, which is the `Memory`
    behaviour with a ttl no smaller than the entry's age. The seeded entry
    is then a fresh hit: it is served with 200 and no provider is invoked,
    so that test never reaches the provider loop or the stale fallback.
  */
  lemma FailoverTestTakesFreshPath(ttl: int, now: int)
    requires now <= ttl
    ensures Decide(map["melbourne" := Entry(Weather(10.0, 15.0), 0)], ttl, NormalizeCity("melbourne"), [Err, Err], now)
      == Decision(Ok200(Weather(10.0, 15.0)), 0, None)
  {
    DefaultCityKey();
  }

  /** With no providers and nothing cached the answer is 502. */
  lemma NoProvidersNoCacheScenario(ttl: int, city: string, now: int)
    ensures StatusCode(Decide(map[], ttl, NormalizeCity(city), [], now).resp) == 502
  {
  }
}
