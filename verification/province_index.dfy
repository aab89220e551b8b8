/** The province list shown in the dropdown: the distinct truthy
    `"state-province"` values of the fetched records, in first-seen order,
    behind the sentinel "All". */
module ProvinceIndex {
  import opened Records

  /** The distinct truthy provinces of `data`, as the loop builds them: a
      province is appended when it is truthy and not yet in the list. */
  function UniqueProvinces(data: seq<University>): seq<string>
    decreases |data|
  {
    if data == [] then []
    else
      var prev := UniqueProvinces(data[..|data| - 1]);
      var p := data[|data| - 1].province;
      if Truthy(p) && p.value !in prev then prev + [p.value] else prev
  }

  /** The whole dropdown list: "All" followed by the distinct provinces. */
  function DeriveProvinces(data: seq<University>): (r: seq<string>)
    ensures |r| >= 1 && r[0] == "All"
  {
    ["All"] + UniqueProvinces(data)
  }

  /** Index of the first record whose province is `x`, or `|data|` when
      there is none. */
  function FirstIndex(data: seq<University>, x: string): (r: nat)
    ensures r <= |data|
    ensures r < |data| ==> data[r].province == Some(x)
    ensures forall j :: 0 <= j < r ==> data[j].province != Some(x)
    decreases |data|
  {
    if data == [] then 0
    else if data[0].province == Some(x) then 0
    else 1 + FirstIndex(data[1..], x)
  }

  /** The derivation as the component runs it: map every record to its
      province, push each truthy one not already included, then put "All"
      at the front. */
  method ComputeProvinces(data: seq<University>) returns (provinces: seq<string>)
    ensures provinces == DeriveProvinces(data)
  {
    var allProvinces := seq(|data|, i requires 0 <= i < |data| => data[i].province);
    var uniqueProvinces: seq<string> := [];
    for i := 0 to |allProvinces|
      invariant uniqueProvinces == UniqueProvinces(data[..i])
    {
      var province := allProvinces[i];
      assert data[..i + 1][..i] == data[..i];
      if Truthy(province) && province.value !in uniqueProvinces {
        uniqueProvinces := uniqueProvinces + [province.value];
      }
    }
    assert data[..|data|] == data;
    provinces := ["All"] + uniqueProvinces;
  }

  /** Appending a record either leaves the first index of `x` alone (when
      `x` already occurs) or makes the new record the first occurrence. */
  lemma FirstIndexSnoc(data: seq<University>, u: University, x: string)
    ensures HasProvince(data, x) ==> FirstIndex(data + [u], x) == FirstIndex(data, x) < |data|
    ensures !HasProvince(data, x) && u.province == Some(x) ==> FirstIndex(data + [u], x) == |data|
  {
    var d := data + [u];
    var r, r' := FirstIndex(data, x), FirstIndex(d, x);
    if HasProvince(data, x) {
      var i :| 0 <= i < |data| && data[i].province == Some(x);
      assert d[i] == data[i];
      assert r <= i && r' <= i;
      assert d[r] == data[r];
      assert d[r'] == data[r'];
    } else if u.province == Some(x) {
      assert d[|data|] == u;
    }
  }

  /** Every listed province is a non-empty province of some record, and
      every non-empty province of some record is listed. */
  lemma {:induction false} UniqueProvincesMembership(data: seq<University>, x: string)
    ensures x in UniqueProvinces(data) <==> x != "" && HasProvince(data, x)
    decreases |data|
  {
    if data != [] {
      var init := data[..|data| - 1];
      UniqueProvincesMembership(init, x);
      assert data == init + [data[|data| - 1]];
      if HasProvince(data, x) && !HasProvince(init, x) {
        var i :| 0 <= i < |data| && data[i].province == Some(x);
        if i < |init| {
          assert init[i] == data[i];
        }
      }
      if HasProvince(init, x) {
        var i :| 0 <= i < |init| && init[i].province == Some(x);
        assert data[i] == init[i];
      }
    }
  }

  /** The distinct-provinces part of the list never repeats a value. */
  lemma {:induction false} UniqueProvincesDistinct(data: seq<University>)
    ensures NoDuplicates(UniqueProvinces(data))
    decreases |data|
  {
    if data != [] {
      UniqueProvincesDistinct(data[..|data| - 1]);
    }
  }

  /** The distinct provinces appear in the order of their first occurrence
      in `data`. */
  lemma {:induction false} UniqueProvincesOrder(data: seq<University>)
    ensures forall k :: 0 <= k < |UniqueProvinces(data)| ==>
      FirstIndex(data, UniqueProvinces(data)[k]) < |data|
    ensures InFirstSeenOrder(data, UniqueProvinces(data))
    decreases |data|
  {
    if data != [] {
      var init := data[..|data| - 1];
      var u := data[|data| - 1];
      assert data == init + [u];
      var prev := UniqueProvinces(init);
      var cur := UniqueProvinces(data);
      UniqueProvincesOrder(init);
      forall k | 0 <= k < |prev|
        ensures FirstIndex(data, prev[k]) == FirstIndex(init, prev[k]) < |init|
      {
        UniqueProvincesMembership(init, prev[k]);
        FirstIndexSnoc(init, u, prev[k]);
      }
      if |cur| != |prev| {
        UniqueProvincesMembership(init, u.province.value);
        FirstIndexSnoc(init, u, u.province.value);
      }
    }
  }

  /** `s` lists its values in strictly increasing order of `key`. */
  ghost predicate IncreasingBy(key: string -> int, s: seq<string>)
  {
    forall k1, k2 :: 0 <= k1 < k2 < |s| ==> key(s[k1]) < key(s[k2])
  }

  /** `s` lists its values in strictly increasing order of their first
      occurrence in `data`. */
  ghost predicate InFirstSeenOrder(data: seq<University>, s: seq<string>)
  {
    IncreasingBy(x => FirstIndex(data, x), s)
  }

  /** In a list ordered by a key, the head is not repeated in the tail. */
  lemma TailMembers(key: string -> int, s: seq<string>)
    requires s != [] && IncreasingBy(key, s)
    ensures IncreasingBy(key, s[1..])
    ensures forall x :: x in s[1..] <==> x in s && x != s[0]
  {
  }

  /** Two lists ordered by the same key and holding the same values start
      with the same value. */
  lemma SameHead(key: string -> int, s: seq<string>, t: seq<string>)
    requires s != [] && IncreasingBy(key, s) && IncreasingBy(key, t)
    requires forall x :: x in s <==> x in t
    ensures t != [] && t[0] == s[0]
  {
    assert s[0] in t;
    var j :| 0 <= j < |t| && t[j] == s[0];
    assert t[0] in s;
    var i :| 0 <= i < |s| && s[i] == t[0];
  }

  /** Two lists ordered by the same key and holding the same values are the
      same list. */
  lemma {:induction false} IncreasingByUnique(key: string -> int, s: seq<string>, t: seq<string>)
    requires IncreasingBy(key, s) && IncreasingBy(key, t)
    requires forall x :: x in s <==> x in t
    ensures s == t
    decreases |s|
  {
    if s == [] {
      if t != [] {
        SameHead(key, t, s);
      }
    } else {
      SameHead(key, s, t);
      TailMembers(key, s);
      TailMembers(key, t);
      IncreasingByUnique(key, s[1..], t[1..]);
      assert s == [s[0]] + s[1..] && t == [t[0]] + t[1..];
    }
  }

  /** The distinct provinces are the one list that holds exactly the
      non-empty provinces of `data`, in first-seen order. */
  lemma UniqueProvincesCharacterized(data: seq<University>, s: seq<string>)
    ensures s == UniqueProvinces(data) <==>
      (forall x :: x in s <==> x != "" && HasProvince(data, x)) && InFirstSeenOrder(data, s)
  {
    var u := UniqueProvinces(data);
    UniqueProvincesOrder(data);
    forall x ensures x in u <==> x != "" && HasProvince(data, x) {
      UniqueProvincesMembership(data, x);
    }
    if (forall x :: x in s <==> x != "" && HasProvince(data, x)) && InFirstSeenOrder(data, s) {
      IncreasingByUnique(x => FirstIndex(data, x), s, u);
    }
  }

  /** The list is exactly ["All"] precisely when no record has a truthy
      province (in particular when there are no records). */
  lemma DeriveProvincesOnlyAll(data: seq<University>)
    ensures DeriveProvinces(data) == ["All"] <==>
      forall i :: 0 <= i < |data| ==> !Truthy(data[i].province)
  {
    var u := UniqueProvinces(data);
    if u != [] {
      UniqueProvincesMembership(data, u[0]);
    } else {
      forall i | 0 <= i < |data| ensures !Truthy(data[i].province) {
        if Truthy(data[i].province) {
          UniqueProvincesMembership(data, data[i].province.value);
        }
      }
    }
  }

  /** The whole list, "All" included, is free of duplicates exactly when no
      record's province is literally "All". */
  lemma DeriveProvincesDistinct(data: seq<University>)
    ensures NoDuplicates(DeriveProvinces(data)) <==> !HasProvince(data, "All")
  {
    var u := UniqueProvinces(data);
    var r := DeriveProvinces(data);
    UniqueProvincesDistinct(data);
    UniqueProvincesMembership(data, "All");
    if "All" in u {
      var k :| 0 <= k < |u| && u[k] == "All";
      assert r[0] == r[k + 1];
    } else {
      forall i, j | 0 <= i < j < |r| ensures r[i] != r[j] {
        if i > 0 {
          assert r[i] == u[i - 1] && r[j] == u[j - 1];
        } else {
          assert r[j] == u[j - 1];
        }
      }
    }
  }
}
