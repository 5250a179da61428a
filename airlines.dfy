/** The static airline table and its two lookups. */
module AirlineTable {
  import opened Wrappers
  import opened JsMath
  import opened FlightTypes

  const Airlines: seq<Airline> := [
    // Vietnam
    Airline("VN", "Vietnam Airlines"),
    Airline("VJ", "VietJet Air"),
    Airline("BL", "Pacific Airlines"),
    Airline("QH", "Bamboo Airways"),
    // Asia Pacific
    Airline("SQ", "Singapore Airlines"),
    Airline("TG", "Thai Airways"),
    Airline("MH", "Malaysia Airlines"),
    Airline("CX", "Cathay Pacific"),
    Airline("KE", "Korean Air"),
    Airline("OZ", "Asiana Airlines"),
    Airline("NH", "All Nippon Airways"),
    Airline("JL", "Japan Airlines"),
    Airline("BR", "EVA Air"),
    Airline("CI", "China Airlines"),
    Airline("PR", "Philippine Airlines"),
    Airline("5J", "Cebu Pacific"),
    Airline("GA", "Garuda Indonesia"),
    Airline("QF", "Qantas"),
    // Middle East
    Airline("EK", "Emirates"),
    Airline("QR", "Qatar Airways"),
    Airline("EY", "Etihad Airways"),
    // China
    Airline("CA", "Air China"),
    Airline("CZ", "China Southern"),
    Airline("MU", "China Eastern"),
    // Europe
    Airline("BA", "British Airways"),
    Airline("AF", "Air France"),
    Airline("LH", "Lufthansa"),
    Airline("KL", "KLM"),
    // Americas
    Airline("AA", "American Airlines"),
    Airline("UA", "United Airlines"),
    Airline("DL", "Delta Air Lines"),
    // Budget carriers
    Airline("AK", "AirAsia"),
    Airline("D7", "AirAsia X"),
    Airline("FD", "Thai AirAsia"),
    Airline("3K", "Jetstar Asia")
  ]

  /** Codes are pairwise distinct; the proof is split by rows so each part stays small. */
  ghost predicate DistinctCodes(table: seq<Airline>) {
    forall i, j :: 0 <= i < j < |table| ==> table[i].code != table[j].code
  }

  lemma DistinctCodesPart0()
    ensures forall i, j :: 0 <= i < 1 && i < j < |Airlines| ==> Airlines[i].code != Airlines[j].code
  {
  }

  lemma DistinctCodesPart1()
    ensures forall i, j :: 1 <= i < 2 && i < j < |Airlines| ==> Airlines[i].code != Airlines[j].code
  {
  }

  lemma DistinctCodesPart2()
    ensures forall i, j :: 2 <= i < 4 && i < j < |Airlines| ==> Airlines[i].code != Airlines[j].code
  {
  }

  lemma DistinctCodesPart3()
    ensures forall i, j :: 4 <= i < 7 && i < j < |Airlines| ==> Airlines[i].code != Airlines[j].code
  {
  }

  lemma DistinctCodesPart4()
    ensures forall i, j :: 7 <= i < 12 && i < j < |Airlines| ==> Airlines[i].code != Airlines[j].code
  {
  }

  lemma DistinctCodesPart5()
    ensures forall i, j :: 12 <= i < 20 && i < j < |Airlines| ==> Airlines[i].code != Airlines[j].code
  {
  }

  lemma DistinctCodesPart6()
    ensures forall i, j :: 20 <= i < 35 && i < j < |Airlines| ==> Airlines[i].code != Airlines[j].code
  {
  }

  /** The table has 35 airlines with pairwise-distinct two-character codes. */
  lemma AirlineTableShape()
    ensures |Airlines| == 35
    ensures forall i :: 0 <= i < |Airlines| ==> |Airlines[i].code| == 2
    ensures DistinctCodes(Airlines)
  {
    DistinctCodesPart0();
    DistinctCodesPart1();
    DistinctCodesPart2();
    DistinctCodesPart3();
    DistinctCodesPart4();
    DistinctCodesPart5();
    DistinctCodesPart6();
  }

  /** `airlines.find((airline) => airline.code === code)`, over any table. */
  function FindByCode(table: seq<Airline>, code: string): (r: Option<Airline>)
    ensures r.None? <==> forall i :: 0 <= i < |table| ==> table[i].code != code
    ensures r.Some? ==> r.value in table && r.value.code == code
    decreases |table|
  {
    if table == [] then None
    else if table[0].code == code then Some(table[0])
    else FindByCode(table[1..], code)
  }

  /** With distinct codes, `find` returns the one entry carrying the code. */
  lemma {:induction false} FindDistinct(table: seq<Airline>, k: nat)
    requires DistinctCodes(table) && k < |table|
    ensures FindByCode(table, table[k].code) == Some(table[k])
    decreases k
  {
    if k > 0 {
      assert table[0].code != table[k].code;
      assert DistinctCodes(table[1..]) by {
        forall i, j | 0 <= i < j < |table[1..]|
          ensures table[1..][i].code != table[1..][j].code
        {
          assert table[1..][i] == table[i + 1] && table[1..][j] == table[j + 1];
        }
      }
      assert table[1..][k - 1] == table[k];
      FindDistinct(table[1..], k - 1);
    }
  }

  /** `getAirlineByCode(code)`: case-sensitive lookup. */
  function GetAirlineByCode(code: string): (r: Option<Airline>)
    ensures r.None? <==> forall i :: 0 <= i < |Airlines| ==> Airlines[i].code != code
    ensures r.Some? ==> r.value in Airlines && r.value.code == code
  {
    FindByCode(Airlines, code)
  }

  /** Every table entry is found again by its own code. */
  lemma GetAirlineByOwnCode(a: Airline)
    requires a in Airlines
    ensures GetAirlineByCode(a.code) == Some(a)
  {
    AirlineTableShape();
    var k :| 0 <= k < |Airlines| && Airlines[k] == a;
    FindDistinct(Airlines, k);
  }

  /** `getRandomAirline()` for the draw r: `airlines[floor(r * 35)]`. */
  function GetRandomAirline(r: real): (a: Airline)
    requires IsDraw(r)
    ensures a in Airlines
  {
    Airlines[PickIndex(r, |Airlines|)]
  }

  /** The random airline is the table row at the scaled draw, and looking its code up
      finds it again. */
  lemma RandomAirlineFound(r: real)
    requires IsDraw(r)
    ensures var a := GetRandomAirline(r);
      a == Airlines[PickIndex(r, 35)] && GetAirlineByCode(a.code) == Some(a)
  {
    AirlineTableShape();
    GetAirlineByOwnCode(GetRandomAirline(r));
  }
}
