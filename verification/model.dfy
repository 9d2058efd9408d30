/**
  The value types shared by the cache, the providers and the handler
  (backend_Test/internal/model/model.go and backend_Test/internal/providers/provider.go).
  Go's float64 fields are modelled as exact reals.
*/
module Model {

  /** The normalised reading served to callers and stored in the cache. */
  datatype Weather = Weather(windSpeedKph: real, temperatureCelsius: real)

  /** A reading as a provider reports it, before rounding. */
  datatype Measurement = Measurement(tempC: real, windKph: real)

  /** Go's zero value `model.Weather{}`, returned alongside `false` on a miss. */
  const ZeroWeather: Weather := Weather(0.0, 0.0)
}
