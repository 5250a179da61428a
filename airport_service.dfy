/** Search, ranking and lookups over the static airport catalog. The catalog
    itself is data outside this model, so every operation takes it as a parameter. */
module AirportService {
  import opened Wrappers
  import opened AsciiText
  import opened StableSort
  import opened AirportTypes

  /** At most this many hits are returned (`.slice(0, 10)`). */
  const MaxResults: nat := 10

  function Min(a: nat, b: nat): nat {
    if a <= b then a else b
  }

  /** The term matched against: `query.toLowerCase().trim()`. */
  function SearchTerm(query: string): string {
    Trim(ToLower(query))
  }

  /** The score of the first rule of the ladder that the airport satisfies. */
  function MatchScore(a: Airport, term: string): (score: int)
    ensures score in {0, 30, 40, 50, 60, 70, 80, 90, 100}
    ensures score == 100 <==> ToLower(a.iata) == term
  {
    var iata := ToLower(a.iata);
    var city := ToLower(a.city);
    var name := ToLower(a.name);
    var country := ToLower(a.country);
    if iata == term then 100
    else if StartsWith(iata, term) then 90
    else if city == term then 80
    else if StartsWith(city, term) then 70
    else if StartsWith(name, term) then 60
    else if Includes(city, term) then 50
    else if Includes(name, term) then 40
    else if Includes(country, term) then 30
    else 0
  }

  /** The ladder written as data: which field, which test, which score. */
  datatype Field = IataField | CityField | NameField | CountryField
  datatype Test = Equals | Prefix | Contains
  datatype Rule = Rule(field: Field, test: Test, score: int)

  const Ladder: seq<Rule> := [
    Rule(IataField, Equals, 100), Rule(IataField, Prefix, 90),
    Rule(CityField, Equals, 80), Rule(CityField, Prefix, 70),
    Rule(NameField, Prefix, 60), Rule(CityField, Contains, 50),
    Rule(NameField, Contains, 40), Rule(CountryField, Contains, 30)]

  function FieldOf(a: Airport, f: Field): string {
    match f
    case IataField => a.iata
    case CityField => a.city
    case NameField => a.name
    case CountryField => a.country
  }

  predicate Holds(rule: Rule, a: Airport, term: string) {
    var v := ToLower(FieldOf(a, rule.field));
    match rule.test
    case Equals => v == term
    case Prefix => StartsWith(v, term)
    case Contains => Includes(v, term)
  }

  /** Evaluate the rules in order and take the score of the first that holds, 0 if none. */
  function FirstHolding(rules: seq<Rule>, a: Airport, term: string): int
    decreases |rules|
  {
    if rules == [] then 0
    else if Holds(rules[0], a, term) then rules[0].score
    else FirstHolding(rules[1..], a, term)
  }

  /** The sequential checks of the scorer give exactly the first-matching-rule score. */
  lemma MatchScoreIsFirstRule(a: Airport, term: string)
    ensures MatchScore(a, term) == FirstHolding(Ladder, a, term)
  {
    var l := Ladder;
    assert l[1..][1..][1..][1..][1..][1..][1..][1..] == [];
  }

  /** An airport scores at all exactly when the term is a prefix of its IATA code or
      occurs in its city, name or country (equality and prefix imply occurrence). */
  lemma ScorePositiveIff(a: Airport, term: string)
    ensures MatchScore(a, term) > 0 <==>
      StartsWith(ToLower(a.iata), term) || Includes(ToLower(a.city), term)
      || Includes(ToLower(a.name), term) || Includes(ToLower(a.country), term)
  {
    var city := ToLower(a.city);
    var name := ToLower(a.name);
    if city == term { assert StartsWith(city, term); }
    if StartsWith(city, term) { StartsWithIncludes(city, term); }
    if StartsWith(name, term) { StartsWithIncludes(name, term); }
  }

  /** `airports.map(...)`: every catalog airport with its score, in catalog order. */
  function ScoreAll(catalog: seq<Airport>, term: string): (hits: seq<SearchHit>)
    ensures |hits| == |catalog|
    ensures forall i :: 0 <= i < |catalog| ==> hits[i] == SearchHit(catalog[i], MatchScore(catalog[i], term))
    ensures forall h :: h in hits ==> h.airport in catalog && h.matchScore == MatchScore(h.airport, term)
    decreases |catalog|
  {
    if catalog == [] then []
    else [SearchHit(catalog[0], MatchScore(catalog[0], term))] + ScoreAll(catalog[1..], term)
  }

  /** `.filter((airport) => airport.matchScore > 0)`. */
  function Positive(hits: seq<SearchHit>): (r: seq<SearchHit>)
    ensures forall h :: h in r <==> h in hits && h.matchScore > 0
    decreases |hits|
  {
    if hits == [] then []
    else if hits[0].matchScore > 0 then [hits[0]] + Positive(hits[1..])
    else Positive(hits[1..])
  }

  /** The number of catalog airports that score above zero. */
  function CountScored(catalog: seq<Airport>, term: string): nat
    decreases |catalog|
  {
    if catalog == [] then 0
    else (if MatchScore(catalog[0], term) > 0 then 1 else 0) + CountScored(catalog[1..], term)
  }

  lemma {:induction false} PositiveCount(catalog: seq<Airport>, term: string)
    ensures |Positive(ScoreAll(catalog, term))| == CountScored(catalog, term)
    decreases |catalog|
  {
    if catalog != [] {
      PositiveCount(catalog[1..], term);
      assert ScoreAll(catalog, term)[1..] == ScoreAll(catalog[1..], term);
    }
  }

  /** The comparator `(a, b) => b.matchScore - a.matchScore` as a sort key. */
  function ByScoreDescending(h: SearchHit): int {
    -h.matchScore
  }

  /** The hits of one score, in their order in the sequence. */
  function Tier(hits: seq<SearchHit>, score: int): seq<SearchHit> {
    WithKey(hits, ByScoreDescending, -score)
  }

  /** Every scored airport, best first, ties in catalog order. */
  function Ranked(catalog: seq<Airport>, term: string): seq<SearchHit> {
    SortBy(Positive(ScoreAll(catalog, term)), ByScoreDescending)
  }

  /** `searchAirports(query)`. */
  function SearchAirports(catalog: seq<Airport>, query: string): (r: seq<SearchHit>)
    ensures IsBlank(query) ==> r == []
    ensures !IsBlank(query) ==> |r| == Min(MaxResults, CountScored(catalog, SearchTerm(query)))
    ensures forall i :: 0 <= i < |r| ==>
      r[i].airport in catalog && r[i].matchScore > 0 && r[i].matchScore == MatchScore(r[i].airport, SearchTerm(query))
    ensures forall i, j :: 0 <= i < j < |r| ==> r[i].matchScore >= r[j].matchScore
  {
    if Trim(query) == [] then []
    else
      var term := SearchTerm(query);
      var ranked := Ranked(catalog, term);
      RankedFacts(catalog, term);
      ranked[..Min(MaxResults, |ranked|)]
  }

  /** What the ranking keeps: scored catalog airports, best first, one per scored airport. */
  lemma RankedFacts(catalog: seq<Airport>, term: string)
    ensures |Ranked(catalog, term)| == CountScored(catalog, term)
    ensures forall i :: 0 <= i < |Ranked(catalog, term)| ==>
      var h := Ranked(catalog, term)[i];
      h.airport in catalog && h.matchScore > 0 && h.matchScore == MatchScore(h.airport, term)
    ensures forall i, j :: 0 <= i < j < |Ranked(catalog, term)| ==>
      Ranked(catalog, term)[i].matchScore >= Ranked(catalog, term)[j].matchScore
  {
    var positive := Positive(ScoreAll(catalog, term));
    var ranked := Ranked(catalog, term);
    PositiveCount(catalog, term);
    forall i | 0 <= i < |ranked| ensures ranked[i] in positive {
      assert ranked[i] in multiset(ranked);
    }
    assert SortedBy(ranked, ByScoreDescending);
    forall i, j | 0 <= i < j < |ranked| ensures ranked[i].matchScore >= ranked[j].matchScore {
      assert ByScoreDescending(ranked[i]) <= ByScoreDescending(ranked[j]);
    }
  }

  /** Filtering out zero scores leaves every positive tier as it was. */
  lemma {:induction false} PositiveTier(hits: seq<SearchHit>, score: int)
    requires score > 0
    ensures Tier(Positive(hits), score) == Tier(hits, score)
    decreases |hits|
  {
    if hits != [] {
      PositiveTier(hits[1..], score);
    }
  }

  /** Filtering and then sorting keeps each positive tier exactly. */
  lemma SortPositiveTier(hits: seq<SearchHit>, score: int)
    requires score > 0
    ensures Tier(SortBy(Positive(hits), ByScoreDescending), score) == Tier(hits, score)
  {
    var positive := Positive(hits);
    var b := Tier(SortBy(positive, ByScoreDescending), score);
    var c := Tier(positive, score);
    SortByKeepsTies(positive, ByScoreDescending, -score);
    assert b == c;
    PositiveTier(hits, score);
    assert c == Tier(hits, score);
  }

  /** Ranking keeps each positive tier exactly, in catalog order. */
  lemma RankedTier(catalog: seq<Airport>, term: string, score: int)
    requires score > 0
    ensures Tier(Ranked(catalog, term), score) == Tier(ScoreAll(catalog, term), score)
  {
    SortPositiveTier(ScoreAll(catalog, term), score);
  }

  /** A non-blank search returns the head of the ranking. */
  lemma SearchIsRankedPrefix(catalog: seq<Airport>, query: string)
    requires !IsBlank(query)
    ensures var ranked := Ranked(catalog, SearchTerm(query));
      SearchAirports(catalog, query) == ranked[..Min(MaxResults, |ranked|)]
  {
  }

  /** Cutting hits short keeps a prefix of every tier. */
  lemma PrefixTier(hits: seq<SearchHit>, n: nat, score: int)
    requires n <= |hits|
    ensures Tier(hits[..n], score) <= Tier(hits, score)
  {
    WithKeyPrefix(hits, n, ByScoreDescending, -score);
  }

  /** Stability: the hits of any score that are returned are the first hits of that
      score in catalog order, in catalog order. */
  lemma SearchKeepsCatalogOrder(catalog: seq<Airport>, query: string, score: int)
    requires score > 0
    ensures Tier(SearchAirports(catalog, query), score) <= Tier(ScoreAll(catalog, SearchTerm(query)), score)
  {
    if !IsBlank(query) {
      var term := SearchTerm(query);
      var ranked := Ranked(catalog, term);
      SearchIsRankedPrefix(catalog, query);
      PrefixTier(ranked, Min(MaxResults, |ranked|), score);
      RankedTier(catalog, term, score);
    }
  }

  /** IATA codes are distinct even ignoring case. */
  ghost predicate UniqueIata(catalog: seq<Airport>) {
    forall i, j :: 0 <= i < j < |catalog| ==> ToLower(catalog[i].iata) != ToLower(catalog[j].iata)
  }

  /** With no airport whose code is the term, nothing scores 100. */
  lemma {:induction false} NoExactTier(catalog: seq<Airport>, term: string)
    requires forall i :: 0 <= i < |catalog| ==> ToLower(catalog[i].iata) != term
    ensures Tier(ScoreAll(catalog, term), 100) == []
    decreases |catalog|
  {
    if catalog != [] {
      var rest := ScoreAll(catalog[1..], term);
      assert ScoreAll(catalog, term) == [SearchHit(catalog[0], MatchScore(catalog[0], term))] + rest;
      assert ToLower(catalog[0].iata) != term;
      NoExactTier(catalog[1..], term);
    }
  }

  lemma {:induction false} AtMostOneExact(catalog: seq<Airport>, term: string)
    requires UniqueIata(catalog)
    ensures |Tier(ScoreAll(catalog, term), 100)| <= 1
    decreases |catalog|
  {
    if catalog != [] {
      var tail := catalog[1..];
      var rest := ScoreAll(tail, term);
      assert ScoreAll(catalog, term) == [SearchHit(catalog[0], MatchScore(catalog[0], term))] + rest;
      if MatchScore(catalog[0], term) == 100 {
        forall i | 0 <= i < |tail| ensures ToLower(tail[i].iata) != term {
          assert tail[i] == catalog[i + 1];
        }
        NoExactTier(tail, term);
      } else {
        assert UniqueIata(tail) by {
          forall i, j | 0 <= i < j < |tail|
            ensures ToLower(tail[i].iata) != ToLower(tail[j].iata)
          {
            assert tail[i] == catalog[i + 1] && tail[j] == catalog[j + 1];
          }
        }
        AtMostOneExact(tail, term);
      }
    }
  }

  /** The ranking starts with the airport whose code is the term. */
  lemma RankedHeadIsExact(catalog: seq<Airport>, term: string, a: Airport)
    requires UniqueIata(catalog) && a in catalog && ToLower(a.iata) == term
    ensures |Ranked(catalog, term)| > 0 && Ranked(catalog, term)[0] == SearchHit(a, 100)
  {
    var hits := ScoreAll(catalog, term);
    var ranked := Ranked(catalog, term);
    var k :| 0 <= k < |catalog| && catalog[k] == a;
    var h := SearchHit(a, 100);
    assert hits[k] == h;
    assert h in Positive(hits);
    assert h in multiset(ranked);
    assert ByScoreDescending(ranked[0]) <= ByScoreDescending(h) by {
      var m :| 0 <= m < |ranked| && ranked[m] == h;
      if m > 0 { assert SortedBy(ranked, ByScoreDescending); }
    }
    assert ranked[0] in Positive(hits) by { assert ranked[0] in multiset(ranked); }
    var b := ranked[0].airport;
    assert ranked[0].matchScore == 100;
    assert b == a by {
      var kb :| 0 <= kb < |catalog| && catalog[kb] == b;
    }
  }

  /** With distinct codes a search returns at most one hit of score 100. */
  lemma OneExactReturned(catalog: seq<Airport>, query: string, i: nat, j: nat)
    requires UniqueIata(catalog)
    requires i < j < |SearchAirports(catalog, query)|
    ensures SearchAirports(catalog, query)[i].matchScore < 100 || SearchAirports(catalog, query)[j].matchScore < 100
  {
    var r := SearchAirports(catalog, query);
    if r[i].matchScore >= 100 && r[j].matchScore >= 100 {
      assert r[i].matchScore == 100 && r[j].matchScore == 100;
      WithKeyTwo(r, ByScoreDescending, i, j);
      SearchKeepsCatalogOrder(catalog, query, 100);
      AtMostOneExact(catalog, SearchTerm(query));
      assert false;
    }
  }

  /** An airport whose IATA code is the query, ignoring case, comes first, with score
      100, and no other hit scores 100. */
  lemma ExactIataMatchFirst(catalog: seq<Airport>, query: string, a: Airport)
    requires UniqueIata(catalog) && a in catalog
    requires !IsBlank(query) && ToLower(a.iata) == SearchTerm(query)
    ensures var r := SearchAirports(catalog, query);
      |r| > 0 && r[0] == SearchHit(a, 100) && forall i :: 0 < i < |r| ==> r[i].matchScore < 100
  {
    var r := SearchAirports(catalog, query);
    RankedHeadIsExact(catalog, SearchTerm(query), a);
    SearchIsRankedPrefix(catalog, query);
    forall i | 0 < i < |r| ensures r[i].matchScore < 100 {
      OneExactReturned(catalog, query, 0, i);
    }
  }

  predicate IataMatches(a: Airport, iata: string) {
    ToLower(a.iata) == ToLower(iata)
  }

  /** `getAirportByIATA`: the first catalog airport whose code matches ignoring case. */
  function GetAirportByIATA(catalog: seq<Airport>, iata: string): (r: Option<Airport>)
    ensures r.None? <==> forall i :: 0 <= i < |catalog| ==> !IataMatches(catalog[i], iata)
    ensures r.Some? ==> exists i :: 0 <= i < |catalog| && catalog[i] == r.value && IataMatches(r.value, iata)
                                   && forall j :: 0 <= j < i ==> !IataMatches(catalog[j], iata)
    decreases |catalog|
  {
    if catalog == [] then None
    else if IataMatches(catalog[0], iata) then Some(catalog[0])
    else
      var r := GetAirportByIATA(catalog[1..], iata);
      assert forall i :: 1 <= i < |catalog| ==> catalog[i] == catalog[1..][i - 1];
      if r.Some? then
        var i :| 0 <= i < |catalog[1..]| && catalog[1..][i] == r.value && IataMatches(r.value, iata)
          && forall j :: 0 <= j < i ==> !IataMatches(catalog[1..][j], iata);
        assert catalog[i + 1] == r.value;
        r
      else r
  }

  predicate CountryMatches(a: Airport, country: string) {
    ToLower(a.country) == ToLower(country)
  }

  /** s can be obtained from t by deleting elements. */
  ghost predicate Subsequence<T>(s: seq<T>, t: seq<T>)
    decreases |t|
  {
    s == [] || (t != [] && ((s[0] == t[0] && Subsequence(s[1..], t[1..])) || Subsequence(s, t[1..])))
  }

  /** `getAirportsByCountry`: the airports of one country, ignoring case, in catalog order. */
  function GetAirportsByCountry(catalog: seq<Airport>, country: string): (r: seq<Airport>)
    ensures forall a :: a in r <==> a in catalog && CountryMatches(a, country)
    ensures Subsequence(r, catalog)
    decreases |catalog|
  {
    if catalog == [] then []
    else
      var rest := GetAirportsByCountry(catalog[1..], country);
      if CountryMatches(catalog[0], country) then
        var r := [catalog[0]] + rest;
        assert r[1..] == rest;
        r
      else
        rest
  }
}
