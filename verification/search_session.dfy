/** The component's state and the handlers that change it: the country
    query, the fetched records, the loading flag, the dropdown's province
    list and the current selection. */
module SearchSession {
  import opened Records
  import opened ProvinceIndex
  import opened ResultFilter

  /** What the request and `response.json()` come to: the parsed array of
      records, or an error thrown by either (the network request failing, a
      body that is not JSON), which the handler catches and logs. */
  datatype FetchOutcome = Fetched(data: seq<University>) | Failed

  /** The state hooks of the component, one field each. */
  class UniSearch {
    var country: string
    var universities: seq<University>
    var loading: bool
    var provinces: seq<string>
    var selectedProvince: string
    /** Every value `loading` has been set to, in order: the loading
        indicator's history. */
    ghost var loadingTrace: seq<bool>

    /** Either nothing has been fetched yet, or the dropdown list is the one
        derived from the current records and the selection is one of its
        entries. */
    ghost predicate Valid()
      reads this
    {
      && ((universities == [] && provinces == [] && selectedProvince == "")
          || (provinces == DeriveProvinces(universities) && selectedProvince in provinces))
      && loadingTrace != [] && loadingTrace[|loadingTrace| - 1] == loading
    }

    /** The initial values of the state hooks. */
    constructor ()
      ensures Valid()
      ensures country == "" && universities == [] && !loading
      ensures provinces == [] && selectedProvince == ""
      ensures loadingTrace == [false]
    {
      country := "";
      universities := [];
      loading := false;
      loadingTrace := [false];
      provinces := [];
      selectedProvince := "";
    }

    /** First step of a search, before the request is awaited: the loading
        indicator is switched on and nothing else changes. */
    method BeginSearch()
      requires Valid()
      modifies this`loading, this`loadingTrace
      ensures Valid() && loading
      ensures loadingTrace == old(loadingTrace) + [true]
    {
      loading := true;
      loadingTrace := loadingTrace + [true];
    }

    /** Second step of a search, once the request has settled: on success
        the records are stored, the province list is derived from them and
        the selection goes back to "All"; on failure the error is swallowed
        and those three stay as they were. Either way loading ends. */
    method FinishSearch(outcome: FetchOutcome)
      requires Valid()
      modifies this`universities, this`provinces, this`selectedProvince, this`loading, this`loadingTrace
      ensures Valid() && !loading
      ensures loadingTrace == old(loadingTrace) + [false]
      ensures outcome.Fetched? ==>
        universities == outcome.data && provinces == DeriveProvinces(outcome.data) && selectedProvince == "All"
      ensures outcome.Failed? ==>
        universities == old(universities) && provinces == old(provinces) && selectedProvince == old(selectedProvince)
    {
      match outcome {
        case Fetched(data) =>
          universities := data;
          var uniqueProvinces := ComputeProvinces(data);
          provinces := uniqueProvinces;
          selectedProvince := "All";
        case Failed =>
          // the error is logged to the console and goes no further
      }
      loading := false;
      loadingTrace := loadingTrace + [false];
    }

    /** The whole search handler, run to completion with the request's
        outcome given. */
    method SearchUniversities(outcome: FetchOutcome)
      requires Valid()
      modifies this`universities, this`provinces, this`selectedProvince, this`loading, this`loadingTrace
      ensures Valid() && !loading
      ensures loadingTrace == old(loadingTrace) + [true, false]
      ensures outcome.Fetched? ==>
        universities == outcome.data && provinces == DeriveProvinces(outcome.data) && selectedProvince == "All"
      ensures outcome.Failed? ==>
        universities == old(universities) && provinces == old(provinces) && selectedProvince == old(selectedProvince)
    {
      BeginSearch();
      FinishSearch(outcome);
    }

    /** Typing in the country box: the query is updated, and a search runs
        when the query actually changed and is not the empty string. */
    method ChangeCountry(c: string, outcome: FetchOutcome)
      requires Valid()
      modifies this
      ensures Valid() && country == c
      ensures c == old(country) || c == "" ==>
        universities == old(universities) && provinces == old(provinces)
        && selectedProvince == old(selectedProvince) && loading == old(loading)
        && loadingTrace == old(loadingTrace)
      ensures c != old(country) && c != "" ==> loadingTrace == old(loadingTrace) + [true, false]
      ensures c != old(country) && c != "" && outcome.Fetched? ==>
        !loading && universities == outcome.data
        && provinces == DeriveProvinces(outcome.data) && selectedProvince == "All"
      ensures c != old(country) && c != "" && outcome.Failed? ==>
        !loading && universities == old(universities)
        && provinces == old(provinces) && selectedProvince == old(selectedProvince)
    {
      var changed := c != country;
      country := c;
      if changed && c != "" {
        SearchUniversities(outcome);
      }
    }

    /** Picking an entry of the dropdown. */
    method SelectProvince(p: string)
      requires Valid() && p in provinces
      modifies this`selectedProvince
      ensures Valid() && selectedProvince == p
    {
      selectedProvince := p;
    }

    /** The records shown in the grid: exactly the records that match the
        selection, each as often as it occurs, in their original order. With
        "All" selected they are all the records; in a valid state the view
        is empty only when there are no records at all. */
    function FilteredUniversities(): (r: seq<University>)
      reads this
      ensures selectedProvince == "All" ==> r == universities
      ensures Valid() ==> (r == [] <==> universities == [])
      ensures IsSubsequence(r, universities)
      ensures forall u :: u in r ==> u in universities && Keep(u, selectedProvince)
      ensures forall u ::
                multiset(r)[u] == if Keep(u, selectedProvince) then multiset(universities)[u] else 0
    {
      FilterAll(universities);
      FilterIsSubsequence(universities, selectedProvince);
      assert forall u ::
               multiset(Filter(universities, selectedProvince))[u]
               == (if Keep(u, selectedProvince) then multiset(universities)[u] else 0) by {
        forall u ensures multiset(Filter(universities, selectedProvince))[u] ==
          (if Keep(u, selectedProvince) then multiset(universities)[u] else 0) {
          FilterCounts(universities, selectedProvince, u);
        }
      }
      assert Valid() ==> (Filter(universities, selectedProvince) == [] <==> universities == []) by {
        if selectedProvince in DeriveProvinces(universities) {
          FilterByListedProvince(universities, selectedProvince);
        }
      }
      Filter(universities, selectedProvince)
    }
  }
}
