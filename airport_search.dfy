/** The airport search box: the query, the result list, whether the dropdown is open and
    the highlighted row, as the search effect, the key handler and the select and clear
    handlers change them. */
module AirportSearch {
  import opened AsciiText
  import opened AirportTypes
  import AirportService
  import AirportStore

  /** The keys the handler distinguishes; every other key is `OtherKey`. */
  datatype Key = ArrowDown | ArrowUp | Enter | Escape | OtherKey

  /** The index after ArrowDown: one further down, but never past the last row. */
  function NextIndex(prev: int, count: nat): (i: int)
    ensures i == prev + 1 || i == prev
    ensures -1 <= prev < count ==> -1 <= i < count && (i == prev <==> prev == count - 1)
  {
    if prev < count - 1 then prev + 1 else prev
  }

  /** The index after ArrowUp: one further up, and from the top row (or none) no row. */
  function PrevIndex(prev: int): (i: int)
    ensures prev > 0 ==> i == prev - 1
    ensures prev <= 0 ==> i == -1
    ensures -1 <= i && (prev >= 0 ==> i < prev)
  {
    if prev > 0 then prev - 1 else -1
  }

  /** The index after pressing ArrowDown n times. */
  function DownPresses(prev: int, count: nat, n: nat): int
    decreases n
  {
    if n == 0 then prev else DownPresses(NextIndex(prev, count), count, n - 1)
  }

  /** The index after pressing ArrowUp n times. */
  function UpPresses(prev: int, n: nat): int
    decreases n
  {
    if n == 0 then prev else UpPresses(PrevIndex(prev), n - 1)
  }

  /** From a row (or none), n presses of ArrowDown reach row prev + n, or the last row. */
  lemma {:induction false} DownPressesReach(prev: int, count: nat, n: nat)
    requires -1 <= prev < count
    ensures DownPresses(prev, count, n) == if prev + n < count then prev + n else count - 1
    decreases n
  {
    if n > 0 {
      DownPressesReach(NextIndex(prev, count), count, n - 1);
    }
  }

  /** From a row (or none), n presses of ArrowUp reach row prev - n, or no row. */
  lemma {:induction false} UpPressesReach(prev: int, n: nat)
    requires -1 <= prev
    ensures UpPresses(prev, n) == if prev - n >= -1 then prev - n else -1
    decreases n
  {
    if n > 0 {
      UpPressesReach(PrevIndex(prev), n - 1);
    }
  }

  class SearchBox {
    var query: string
    var results: seq<SearchHit>
    var isOpen: bool
    var selectedIndex: int

    /** The highlighted index is a row of a non-empty result list, or -1, and the dropdown
        only opens over results. A stale index may survive alongside an empty list. */
    ghost predicate Valid()
      reads this
    {
      -1 <= selectedIndex && (results != [] ==> selectedIndex < |results|) && (isOpen ==> results != [])
    }

    constructor()
      ensures Valid()
      ensures query == "" && results == [] && !isOpen && selectedIndex == -1
    {
      query := "";
      results := [];
      isOpen := false;
      selectedIndex := -1;
    }

    /** The body of the debounced search effect for the current query: a non-blank query
        shows the search results, opens the dropdown exactly when there are any and
        clears the highlight; a blank query empties and closes the list and leaves the
        highlight as it was. */
    method RunSearch(catalog: seq<Airport>)
      requires Valid()
      modifies this
      ensures Valid() && query == old(query)
      ensures !IsBlank(query) ==>
        results == AirportService.SearchAirports(catalog, query) && (isOpen <==> results != []) &&
        selectedIndex == -1
      ensures IsBlank(query) ==> results == [] && !isOpen && selectedIndex == old(selectedIndex)
    {
      if |Trim(query)| > 0 {
        var searchResults := AirportService.SearchAirports(catalog, query);
        results := searchResults;
        isOpen := |searchResults| > 0;
        selectedIndex := -1;
      } else {
        results := [];
        isOpen := false;
      }
    }

    /** `onChange`: the query becomes the input's value; the search runs later. */
    method OnChange(value: string)
      requires Valid()
      modifies this
      ensures Valid()
      ensures query == value && results == old(results) && isOpen == old(isOpen) &&
        selectedIndex == old(selectedIndex)
    {
      query := value;
    }

    /** `onFocus`: reopens the dropdown over results that are still there. */
    method OnFocus()
      requires Valid()
      modifies this
      ensures Valid()
      ensures isOpen == (old(isOpen) || results != [])
      ensures query == old(query) && results == old(results) && selectedIndex == old(selectedIndex)
    {
      if |results| > 0 {
        isOpen := true;
      }
    }

    /** `handleSelectAirport`: the airport becomes the store's selection and the box is
        emptied and closed. */
    method HandleSelectAirport(hit: SearchHit, store: AirportStore.Store)
      modifies this, store
      ensures Valid()
      ensures store.selectedAirport == hit.airport && store.favoriteAirports == old(store.favoriteAirports)
      ensures query == "" && results == [] && !isOpen && selectedIndex == -1
    {
      store.SetSelectedAirport(hit.airport);
      query := "";
      results := [];
      isOpen := false;
      selectedIndex := -1;
    }

    /** `handleClear`: the box is emptied and closed. */
    method HandleClear()
      modifies this
      ensures Valid()
      ensures query == "" && results == [] && !isOpen && selectedIndex == -1
    {
      query := "";
      results := [];
      isOpen := false;
      selectedIndex := -1;
    }

    /** `handleKeyDown`: nothing happens while the dropdown is closed or empty; otherwise
        the arrows move the highlight, Enter selects the highlighted row if there is one,
        and Escape closes the dropdown and clears the highlight. */
    method HandleKeyDown(key: Key, store: AirportStore.Store)
      requires Valid()
      modifies this, store
      ensures Valid()
      ensures !old(isOpen) || old(results) == [] ==>
        query == old(query) && results == old(results) && isOpen == old(isOpen) &&
        selectedIndex == old(selectedIndex) && store.selectedAirport == old(store.selectedAirport)
      ensures store.favoriteAirports == old(store.favoriteAirports)
      ensures old(isOpen) && old(results) != [] ==>
        match key
        case ArrowDown =>
          selectedIndex == NextIndex(old(selectedIndex), |old(results)|) &&
          query == old(query) && results == old(results) && isOpen &&
          store.selectedAirport == old(store.selectedAirport)
        case ArrowUp =>
          selectedIndex == PrevIndex(old(selectedIndex)) &&
          query == old(query) && results == old(results) && isOpen &&
          store.selectedAirport == old(store.selectedAirport)
        case Enter =>
          if 0 <= old(selectedIndex) < |old(results)| then
            store.selectedAirport == old(results)[old(selectedIndex)].airport &&
            query == "" && results == [] && !isOpen && selectedIndex == -1
          else
            query == old(query) && results == old(results) && isOpen &&
            selectedIndex == old(selectedIndex) && store.selectedAirport == old(store.selectedAirport)
        case Escape =>
          !isOpen && selectedIndex == -1 && query == old(query) && results == old(results) &&
          store.selectedAirport == old(store.selectedAirport)
        case OtherKey =>
          query == old(query) && results == old(results) && isOpen &&
          selectedIndex == old(selectedIndex) && store.selectedAirport == old(store.selectedAirport)
    {
      if !isOpen || |results| == 0 {
        return;
      }
      match key
      case ArrowDown =>
        selectedIndex := if selectedIndex < |results| - 1 then selectedIndex + 1 else selectedIndex;
      case ArrowUp =>
        selectedIndex := if selectedIndex > 0 then selectedIndex - 1 else -1;
      case Enter =>
        if selectedIndex >= 0 && selectedIndex < |results| {
          HandleSelectAirport(results[selectedIndex], store);
        }
      case Escape =>
        isOpen := false;
        selectedIndex := -1;
      case OtherKey =>
    }
  }
}
