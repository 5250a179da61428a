/** The airport store: the selected airport and the list of favourite IATA codes. */
module AirportStore {
  import opened Wrappers
  import opened AirportTypes
  import AirportService

  /** No code occurs twice. */
  predicate NoDuplicates(s: seq<string>) {
    forall i, j :: 0 <= i < j < |s| ==> s[i] != s[j]
  }

  /** `codes.filter((code) => code !== iata)`: every occurrence of `iata` removed, the rest
      in their order. */
  function Without(codes: seq<string>, iata: string): (r: seq<string>)
    ensures forall c :: c in r <==> c in codes && c != iata
    ensures |r| <= |codes|
    ensures |r| < |codes| <==> iata in codes
    decreases |codes|
  {
    if codes == [] then []
    else if codes[0] == iata then Without(codes[1..], iata)
    else [codes[0]] + Without(codes[1..], iata)
  }

  /** Filtering out a code that does not occur changes nothing. */
  lemma {:induction false} WithoutAbsent(codes: seq<string>, iata: string)
    requires iata !in codes
    ensures Without(codes, iata) == codes
    decreases |codes|
  {
    if codes != [] {
      assert codes[0] != iata && iata !in codes[1..];
      WithoutAbsent(codes[1..], iata);
    }
  }

  /** Filtering distributes over concatenation. */
  lemma {:induction false} WithoutAppend(s: seq<string>, t: seq<string>, iata: string)
    ensures Without(s + t, iata) == Without(s, iata) + Without(t, iata)
    decreases |s|
  {
    if s != [] {
      assert (s + t)[0] == s[0] && (s + t)[1..] == s[1..] + t;
      WithoutAppend(s[1..], t, iata);
      if s[0] != iata {
        calc {
          Without(s + t, iata);
          [s[0]] + Without(s[1..] + t, iata);
          [s[0]] + (Without(s[1..], iata) + Without(t, iata));
          ([s[0]] + Without(s[1..], iata)) + Without(t, iata);
          Without(s, iata) + Without(t, iata);
        }
      } else {
        assert Without(s + t, iata) == Without(s[1..] + t, iata);
      }
    } else {
      assert s + t == t;
    }
  }

  /** Filtering keeps a duplicate-free list duplicate-free. */
  lemma {:induction false} WithoutKeepsNoDuplicates(codes: seq<string>, iata: string)
    requires NoDuplicates(codes)
    ensures NoDuplicates(Without(codes, iata))
    decreases |codes|
  {
    if codes != [] {
      assert NoDuplicates(codes[1..]);
      WithoutKeepsNoDuplicates(codes[1..], iata);
      var rest := Without(codes[1..], iata);
      if codes[0] != iata {
        assert codes[0] !in codes[1..];
        assert codes[0] !in rest;
        var r := [codes[0]] + rest;
        forall i, j | 0 <= i < j < |r|
          ensures r[i] != r[j]
        {
          if i == 0 {
            assert r[j] == rest[j - 1];
          } else {
            assert r[i] == rest[i - 1] && r[j] == rest[j - 1];
          }
        }
      }
    }
  }

  /** `toggleFavorite`'s new list: remove `iata` when it is a favourite, otherwise append it. */
  function Toggled(codes: seq<string>, iata: string): (r: seq<string>)
    ensures iata in codes ==> r == Without(codes, iata)
    ensures iata !in codes ==> r == codes + [iata]
  {
    if iata in codes then Without(codes, iata) else codes + [iata]
  }

  /** After a toggle the code's membership is flipped and every other code's is kept. */
  lemma ToggleFlipsOnlyThatCode(codes: seq<string>, iata: string, c: string)
    ensures c == iata ==> (c in Toggled(codes, iata) <==> c !in codes)
    ensures c != iata ==> (c in Toggled(codes, iata) <==> c in codes)
  {
  }

  /** Toggling a code that is not a favourite twice restores the list exactly. */
  lemma ToggleTwiceRestores(codes: seq<string>, iata: string)
    requires iata !in codes
    ensures Toggled(Toggled(codes, iata), iata) == codes
  {
    WithoutAppend(codes, [iata], iata);
    WithoutAbsent(codes, iata);
    assert Without([iata], iata) == [];
  }

  /** Toggling a favourite twice moves it to the end of the list, without its other copies. */
  lemma ToggleTwiceMovesLast(codes: seq<string>, iata: string)
    requires iata in codes
    ensures Toggled(Toggled(codes, iata), iata) == Without(codes, iata) + [iata]
  {
  }

  /** A duplicate-free list stays duplicate-free under any toggle. */
  lemma ToggleKeepsNoDuplicates(codes: seq<string>, iata: string)
    requires NoDuplicates(codes)
    ensures NoDuplicates(Toggled(codes, iata))
  {
    if iata in codes {
      WithoutKeepsNoDuplicates(codes, iata);
    } else {
      var r := codes + [iata];
      forall i, j | 0 <= i < j < |r|
        ensures r[i] != r[j]
      {
        if j == |codes| {
          assert r[i] == codes[i];
        } else {
          assert r[i] == codes[i] && r[j] == codes[j];
        }
      }
    }
  }

  /** `codes.map(lookup).filter(found)`: the values of the codes `lookup` knows, in the
      order of the codes. */
  function KnownValues(lookup: string -> Option<Airport>, codes: seq<string>): (r: seq<Airport>)
    ensures |r| <= |codes|
    ensures forall a :: a in r <==> exists c :: c in codes && lookup(c) == Some(a)
    decreases |codes|
  {
    if codes == [] then []
    else
      var rest := KnownValues(lookup, codes[1..]);
      assert forall c :: c in codes <==> c == codes[0] || c in codes[1..];
      match lookup(codes[0])
      case None => rest
      case Some(a) => [a] + rest
  }

  /** One code contributes its value, if the lookup knows it, ahead of the other codes'. */
  lemma KnownValuesCons(lookup: string -> Option<Airport>, c: string, codes: seq<string>)
    ensures KnownValues(lookup, [c] + codes)
         == (match lookup(c) case Some(a) => [a] case None => []) + KnownValues(lookup, codes)
  {
    assert ([c] + codes)[1..] == codes;
  }

  /** The list of two code lists end to end is the two lists end to end: the order of the
      codes is the order of the values. */
  lemma {:induction false} KnownValuesAppend(lookup: string -> Option<Airport>, s: seq<string>, t: seq<string>)
    ensures KnownValues(lookup, s + t) == KnownValues(lookup, s) + KnownValues(lookup, t)
    decreases |s|
  {
    if s == [] {
      assert s + t == t;
    } else {
      var head := match lookup(s[0]) case Some(a) => [a] case None => [];
      assert [s[0]] + s[1..] == s;
      assert [s[0]] + (s[1..] + t) == s + t;
      calc {
        KnownValues(lookup, s + t);
        { KnownValuesCons(lookup, s[0], s[1..] + t); }
        head + KnownValues(lookup, s[1..] + t);
        { KnownValuesAppend(lookup, s[1..], t); }
        head + (KnownValues(lookup, s[1..]) + KnownValues(lookup, t));
        (head + KnownValues(lookup, s[1..])) + KnownValues(lookup, t);
        { KnownValuesCons(lookup, s[0], s[1..]); }
        KnownValues(lookup, s) + KnownValues(lookup, t);
      }
    }
  }

  /** When every code is known, there is one value per code, each its code's lookup. */
  lemma {:induction false} KnownValuesAllKnown(lookup: string -> Option<Airport>, codes: seq<string>)
    requires forall i :: 0 <= i < |codes| ==> lookup(codes[i]).Some?
    ensures var r := KnownValues(lookup, codes);
      |r| == |codes| && forall i :: 0 <= i < |codes| ==> Some(r[i]) == lookup(codes[i])
    decreases |codes|
  {
    if codes != [] {
      assert forall i :: 1 <= i < |codes| ==> codes[1..][i - 1] == codes[i];
      KnownValuesAllKnown(lookup, codes[1..]);
      var r := KnownValues(lookup, codes);
      var rest := KnownValues(lookup, codes[1..]);
      assert r == [lookup(codes[0]).value] + rest;
      forall i | 1 <= i < |codes|
        ensures Some(r[i]) == lookup(codes[i])
      {
        assert r[i] == rest[i - 1];
      }
    }
  }

  /** The catalog lookup `getFavoriteAirports` maps the codes through. */
  function CatalogLookup(catalog: seq<Airport>): string -> Option<Airport> {
    c => AirportService.GetAirportByIATA(catalog, c)
  }

  /** `getFavoriteAirports`' list: the catalog airports of the favourite codes, unknown
      codes dropped. */
  function FavoriteAirports(catalog: seq<Airport>, codes: seq<string>): (r: seq<Airport>)
    ensures |r| <= |codes|
    ensures forall a :: a in r <==> exists c :: c in codes && AirportService.GetAirportByIATA(catalog, c) == Some(a)
  {
    KnownValues(CatalogLookup(catalog), codes)
  }

  /** When the catalog knows every favourite code, the list has one airport per code, each
      the catalog's first match for its code. */
  lemma FavoriteAirportsAllKnown(catalog: seq<Airport>, codes: seq<string>)
    requires forall i :: 0 <= i < |codes| ==> AirportService.GetAirportByIATA(catalog, codes[i]).Some?
    ensures var r := FavoriteAirports(catalog, codes);
      |r| == |codes| &&
      forall i :: 0 <= i < |codes| ==> Some(r[i]) == AirportService.GetAirportByIATA(catalog, codes[i])
  {
    KnownValuesAllKnown(CatalogLookup(catalog), codes);
  }

  /** The first favourite code contributes its catalog airport, if the catalog knows it, and
      nothing otherwise, ahead of the rest of the list. */
  lemma FavoriteAirportsCons(catalog: seq<Airport>, c: string, codes: seq<string>)
    ensures FavoriteAirports(catalog, [c] + codes)
         == (match AirportService.GetAirportByIATA(catalog, c) case Some(a) => [a] case None => [])
            + FavoriteAirports(catalog, codes)
  {
    KnownValuesCons(CatalogLookup(catalog), c, codes);
  }

  /** A code the catalog does not know contributes nothing. */
  lemma UnknownCodeDropped(catalog: seq<Airport>, codes: seq<string>, iata: string)
    requires AirportService.GetAirportByIATA(catalog, iata).None?
    ensures FavoriteAirports(catalog, [iata] + codes) == FavoriteAirports(catalog, codes)
  {
    FavoriteAirportsCons(catalog, iata, codes);
  }

  /** Favourite lists concatenate: the airports of `s + t` are those of `s`, then those of `t`. */
  lemma FavoriteAirportsAppend(catalog: seq<Airport>, s: seq<string>, t: seq<string>)
    ensures FavoriteAirports(catalog, s + t) == FavoriteAirports(catalog, s) + FavoriteAirports(catalog, t)
  {
    KnownValuesAppend(CatalogLookup(catalog), s, t);
  }

  class Store {
    var selectedAirport: Airport
    var favoriteAirports: seq<string>

    /** The initial state: the default airport selected and SGN the only favourite. */
    constructor(defaultAirport: Airport)
      ensures selectedAirport == defaultAirport && favoriteAirports == ["SGN"]
    {
      selectedAirport := defaultAirport;
      favoriteAirports := ["SGN"];
    }

    /** `setSelectedAirport`: replaces the selection and nothing else. */
    method SetSelectedAirport(airport: Airport)
      modifies this
      ensures selectedAirport == airport && favoriteAirports == old(favoriteAirports)
    {
      selectedAirport := airport;
    }

    /** `includes`: a code is a favourite exactly when toggling it would shorten the list. */
    predicate IsFavorite(iata: string)
      reads this
      ensures IsFavorite(iata) <==> |Toggled(favoriteAirports, iata)| < |favoriteAirports|
    {
      iata in favoriteAirports
    }

    /** `toggleFavorite`: the favourites become `Toggled`, so the answer of `IsFavorite`
        flips for that code alone; the selection is kept. */
    method ToggleFavorite(iata: string)
      modifies this
      ensures favoriteAirports == Toggled(old(favoriteAirports), iata)
      ensures selectedAirport == old(selectedAirport)
      ensures IsFavorite(iata) == !old(IsFavorite(iata))
      ensures forall c :: c != iata ==> (IsFavorite(c) <==> c in old(favoriteAirports))
    {
      favoriteAirports := if iata in favoriteAirports then Without(favoriteAirports, iata)
                          else favoriteAirports + [iata];
    }

    /** `getFavoriteAirports`: the catalog airports of the favourite codes, in their order. */
    function GetFavoriteAirports(catalog: seq<Airport>): (r: seq<Airport>)
      reads this
      ensures r == FavoriteAirports(catalog, favoriteAirports)
      ensures |r| <= |favoriteAirports|
      ensures forall a :: a in r <==> exists c :: c in favoriteAirports && AirportService.GetAirportByIATA(catalog, c) == Some(a)
    {
      FavoriteAirports(catalog, favoriteAirports)
    }
  }
}
