/** The airport record and the search hit built from it. */
module AirportTypes {

  /** A catalog airport. Latitude and longitude are JavaScript numbers, modelled as reals. */
  datatype Airport = Airport(
    iata: string,
    name: string,
    city: string,
    country: string,
    timezone: string,
    latitude: real,
    longitude: real)

  /** An airport with the score it earned against a query (`{ ...airport, matchScore }`). */
  datatype SearchHit = SearchHit(airport: Airport, matchScore: int)
}
