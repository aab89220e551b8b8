/** The visible result list: the fetched records narrowed to the selected
    province, or all of them when the selection is "All". */
module ResultFilter {
  import opened Records
  import opened ProvinceIndex

  /** The filter's callback: a record stays when the selection is "All" or
      its province is `===` to the selection. */
  predicate Keep(u: University, selected: string)
  {
    selected == "All" || u.province == Some(selected)
  }

  /** `Array.prototype.filter` with `Keep`: the kept records, in their
      original order. */
  function Filter(universities: seq<University>, selected: string): (r: seq<University>)
    ensures |r| <= |universities|
    ensures forall u :: u in r ==> u in universities && Keep(u, selected)
    decreases |universities|
  {
    if universities == [] then []
    else
      var rest := Filter(universities[1..], selected);
      if Keep(universities[0], selected) then [universities[0]] + rest else rest
  }

  /** `a` is obtained from `b` by deleting elements (order is kept). */
  ghost predicate IsSubsequence<T>(a: seq<T>, b: seq<T>)
    decreases |b|
  {
    if a == [] then true
    else if b == [] then false
    else if a[0] == b[0] then IsSubsequence(a[1..], b[1..])
    else IsSubsequence(a, b[1..])
  }

  /** Selecting "All" shows the records unchanged. */
  lemma {:induction false} FilterAll(universities: seq<University>)
    ensures Filter(universities, "All") == universities
    decreases |universities|
  {
    if universities != [] {
      FilterAll(universities[1..]);
      assert universities == [universities[0]] + universities[1..];
    }
  }

  /** The filtered list is the input with some records deleted, in the
      original relative order. */
  lemma {:induction false} FilterIsSubsequence(universities: seq<University>, selected: string)
    ensures IsSubsequence(Filter(universities, selected), universities)
    decreases |universities|
  {
    if universities != [] {
      var rest := Filter(universities[1..], selected);
      FilterIsSubsequence(universities[1..], selected);
      if Keep(universities[0], selected) {
        assert ([universities[0]] + rest)[1..] == rest;
      } else if rest != [] {
        // rest[0] is kept, universities[0] is not, so they differ
        assert rest[0] in rest;
      }
    }
  }

  /** Each record occurs in the filtered list as often as in the input when
      it is kept, and not at all otherwise: the filter keeps exactly the
      matching records. */
  lemma {:induction false} FilterCounts(universities: seq<University>, selected: string, u: University)
    ensures multiset(Filter(universities, selected))[u] ==
      if Keep(u, selected) then multiset(universities)[u] else 0
    decreases |universities|
  {
    if universities != [] {
      FilterCounts(universities[1..], selected, u);
      assert universities == [universities[0]] + universities[1..];
    }
  }

  /** The filtered list is empty exactly when no record matches the
      selection. */
  lemma {:induction false} FilterEmpty(universities: seq<University>, selected: string)
    ensures Filter(universities, selected) == [] <==>
      forall i :: 0 <= i < |universities| ==> !Keep(universities[i], selected)
    decreases |universities|
  {
    if universities != [] {
      FilterEmpty(universities[1..], selected);
      forall i | 1 <= i < |universities|
        ensures universities[i] == universities[1..][i - 1]
      {
      }
    }
  }

  /** Filtering an already filtered list with the same selection changes
      nothing. */
  lemma {:induction false} FilterIdempotent(universities: seq<University>, selected: string)
    ensures Filter(Filter(universities, selected), selected) == Filter(universities, selected)
    decreases |universities|
  {
    if universities != [] {
      var rest := Filter(universities[1..], selected);
      FilterIdempotent(universities[1..], selected);
      if Keep(universities[0], selected) {
        assert ([universities[0]] + rest)[1..] == rest;
      }
    }
  }

  /** Every entry of the dropdown list selects at least one record when
      there are records: only an empty result set gives an empty view. */
  lemma FilterByListedProvince(universities: seq<University>, selected: string)
    requires selected in DeriveProvinces(universities)
    ensures Filter(universities, selected) == [] <==> universities == []
  {
    FilterEmpty(universities, selected);
    if selected != "All" {
      UniqueProvincesMembership(universities, selected);
      var i :| 0 <= i < |universities| && universities[i].province == Some(selected);
      assert Keep(universities[i], selected);
    } else {
      FilterAll(universities);
    }
  }

  /** A non-empty selection that is not in the dropdown list shows
      nothing. */
  lemma FilterByUnlistedProvince(universities: seq<University>, selected: string)
    requires selected !in DeriveProvinces(universities) && selected != ""
    ensures Filter(universities, selected) == []
  {
    UniqueProvincesMembership(universities, selected);
    FilterEmpty(universities, selected);
  }

  /** Three records from Sindh, Punjab and with no province give the list
      ["All", "Sindh", "Punjab"], and choosing "Punjab" shows the one
      Punjab record. */
  lemma ThreeRecordScenario(a: University, b: University, c: University)
    requires a.province == Some("Sindh") && b.province == Some("Punjab") && c.province == None
    ensures DeriveProvinces([a, b, c]) == ["All", "Sindh", "Punjab"]
    ensures Filter([a, b, c], "Punjab") == [b]
  {
    assert [a][..0] == [] && [a, b][..1] == [a] && [a, b, c][..2] == [a, b];
    assert UniqueProvinces([a]) == ["Sindh"];
    assert UniqueProvinces([a, b]) == ["Sindh", "Punjab"];
    assert [a, b, c][1..] == [b, c] && [b, c][1..] == [c] && [c][1..] == [];
    assert Filter([c], "Punjab") == [];
  }
}
