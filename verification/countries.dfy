/**
 The countries route of server.js: numbers that name both a country and a country
 code are grouped by the lower-cased country name, each group keeping the name and
 code of its first number and counting its numbers; the groups are then sorted by
 name. `localeCompare` is replaced by the code-point order on names.
 */
module Countries {
  import opened Optional
  import opened Text
  import opened Seqs
  import opened Listing

  datatype CountryGroup = CountryGroup(country: string, code: string, count: nat)

  /** `if (!n.country || !n.countryCode) continue;` lets the number through. */
  predicate Included(n: NumberRecord) {
    n.country.GetOr("") != [] && n.countryCode.GetOr("") != []
  }

  /** The map key of a number: its country name in lower case. */
  function KeyOf(n: NumberRecord): string {
    Lower(n.country.GetOr(""))
  }

  /** The key of a group. */
  function GroupKey(g: CountryGroup): string {
    Lower(g.country)
  }

  /** How many included numbers of `ns` carry the key `key`. */
  function CountWithKey(ns: seq<NumberRecord>, key: string): nat
    decreases |ns|
  {
    if |ns| == 0 then 0
    else (if Included(ns[0]) && KeyOf(ns[0]) == key then 1 else 0) + CountWithKey(ns[1..], key)
  }

  /** How many numbers of `ns` are included at all. */
  function IncludedCount(ns: seq<NumberRecord>): nat
    decreases |ns|
  {
    if |ns| == 0 then 0
    else (if Included(ns[0]) then 1 else 0) + IncludedCount(ns[1..])
  }

  /** The first included number of `ns` that carries `key`, if any. */
  function FirstWithKeyOf(ns: seq<NumberRecord>, key: string): (r: Option<NumberRecord>)
    ensures r.Some? ==> Included(r.value) && KeyOf(r.value) == key && r.value in ns
    ensures r.None? <==> CountWithKey(ns, key) == 0
    decreases |ns|
  {
    if |ns| == 0 then None
    else if Included(ns[0]) && KeyOf(ns[0]) == key then Some(ns[0])
    else FirstWithKeyOf(ns[1..], key)
  }

  lemma {:induction false} CountAppend(xs: seq<NumberRecord>, ys: seq<NumberRecord>, key: string)
    ensures CountWithKey(xs + ys, key) == CountWithKey(xs, key) + CountWithKey(ys, key)
    ensures IncludedCount(xs + ys) == IncludedCount(xs) + IncludedCount(ys)
    ensures FirstWithKeyOf(xs + ys, key) == if FirstWithKeyOf(xs, key).Some? then FirstWithKeyOf(xs, key) else FirstWithKeyOf(ys, key)
    decreases |xs|
  {
    if |xs| == 0 {
      assert xs + ys == ys;
    } else {
      assert (xs + ys)[1..] == xs[1..] + ys;
      assert (xs + ys)[0] == xs[0];
      CountAppend(xs[1..], ys, key);
    }
  }

  function SumCounts(gs: seq<CountryGroup>): nat
    decreases |gs|
  {
    if |gs| == 0 then 0 else gs[0].count + SumCounts(gs[1..])
  }

  lemma {:induction false} SumAppend(gs: seq<CountryGroup>, g: CountryGroup)
    ensures SumCounts(gs + [g]) == SumCounts(gs) + g.count
    decreases |gs|
  {
    if |gs| == 0 {
      assert gs + [g] == [g];
    } else {
      assert (gs + [g])[1..] == gs[1..] + [g];
      SumAppend(gs[1..], g);
    }
  }

  lemma {:induction false} SumBump(gs: seq<CountryGroup>, j: int)
    requires 0 <= j < |gs|
    ensures SumCounts(gs[j := gs[j].(count := gs[j].count + 1)]) == SumCounts(gs) + 1
    decreases |gs|
  {
    var hs := gs[j := gs[j].(count := gs[j].count + 1)];
    if j == 0 {
      assert hs[1..] == gs[1..];
    } else {
      assert hs[1..] == gs[1..][j - 1 := gs[j].(count := gs[j].count + 1)];
      SumBump(gs[1..], j - 1);
    }
  }

  /** The position of the group with key `key`, as `countriesMap.has`/`get` find it. */
  function FindGroup(gs: seq<CountryGroup>, key: string): (r: Option<nat>)
    ensures r.Some? ==> r.value < |gs| && GroupKey(gs[r.value]) == key
    ensures r.None? <==> key !in KeySet(gs, GroupKey)
    decreases |gs|
  {
    if |gs| == 0 then None
    else if GroupKey(gs[0]) == key then Some(0)
    else
      KeySetCons(gs[0], gs[1..], GroupKey);
      assert gs == [gs[0]] + gs[1..];
      match FindGroup(gs[1..], key)
      case None => None
      case Some(j) => Some(j + 1)
  }

  /**
   What the groups built from the numbers `seen` satisfy: distinct keys; every group
   counts exactly the included numbers with its key and keeps the name and code of
   the first of them; a key without a group has no included number; the counts add
   up to the number of included numbers.
   */
  ghost predicate Tally(seen: seq<NumberRecord>, groups: seq<CountryGroup>) {
    && DistinctKeys(groups, GroupKey)
    && Counted(seen, groups)
    && AllFounded(seen, groups)
    && Covered(seen, groups)
    && SumCounts(groups) == IncludedCount(seen)
  }

  predicate Counted(seen: seq<NumberRecord>, groups: seq<CountryGroup>) {
    forall k :: 0 <= k < |groups| ==> groups[k].count >= 1 && groups[k].count == CountWithKey(seen, GroupKey(groups[k]))
  }

  predicate AllFounded(seen: seq<NumberRecord>, groups: seq<CountryGroup>) {
    forall k :: 0 <= k < |groups| ==> Founded(seen, groups[k])
  }

  ghost predicate Covered(seen: seq<NumberRecord>, groups: seq<CountryGroup>) {
    forall key :: key !in KeySet(groups, GroupKey) ==> CountWithKey(seen, key) == 0
  }

  /** `g` carries the name and code of the first included number with its key. */
  predicate Founded(seen: seq<NumberRecord>, g: CountryGroup) {
    var first := FirstWithKeyOf(seen, GroupKey(g));
    first.Some? && g.country == first.value.country.value && g.code == first.value.countryCode.value
  }

  /** One turn of the loop body: skip, bump the existing group, or open a new one. */
  function AddNumber(groups: seq<CountryGroup>, n: NumberRecord): seq<CountryGroup> {
    if !Included(n) then groups
    else
      match FindGroup(groups, KeyOf(n))
      case Some(j) => groups[j := groups[j].(count := groups[j].count + 1)]
      case None => groups + [CountryGroup(n.country.value, n.countryCode.value, 1)]
  }

  /** Reading one more number keeps the tally. */
  lemma AddKeepsTally(seen: seq<NumberRecord>, n: NumberRecord, groups: seq<CountryGroup>)
    requires Tally(seen, groups)
    ensures Tally(seen + [n], AddNumber(groups, n))
  {
    if !Included(n) {
      TallyExcluded(seen, n, groups);
    } else if FindGroup(groups, KeyOf(n)).Some? {
      TallyBump(seen, n, groups, FindGroup(groups, KeyOf(n)).value);
    } else {
      TallyNew(seen, n, groups);
    }
  }

  lemma TallyExcluded(seen: seq<NumberRecord>, n: NumberRecord, groups: seq<CountryGroup>)
    requires Tally(seen, groups) && !Included(n)
    ensures Tally(seen + [n], groups)
  {
    forall key ensures CountWithKey(seen + [n], key) == CountWithKey(seen, key)
      && FirstWithKeyOf(seen + [n], key) == FirstWithKeyOf(seen, key)
    {
      CountAppend(seen, [n], key);
    }
    CountAppend(seen, [n], "");
  }

  lemma TallyBump(seen: seq<NumberRecord>, n: NumberRecord, groups: seq<CountryGroup>, j: nat)
    requires Tally(seen, groups) && Included(n)
    requires j < |groups| && GroupKey(groups[j]) == KeyOf(n)
    ensures Tally(seen + [n], groups[j := groups[j].(count := groups[j].count + 1)])
  {
    var r := groups[j := groups[j].(count := groups[j].count + 1)];
    assert forall k :: 0 <= k < |r| ==> GroupKey(r[k]) == GroupKey(groups[k]);
    BumpCounts(seen, n, groups, j);
    BumpFounded(seen, n, groups, j);
    BumpCovered(seen, n, groups, j);
    CountAppend(seen, [n], "");
    SumBump(groups, j);
  }

  lemma BumpCounts(seen: seq<NumberRecord>, n: NumberRecord, groups: seq<CountryGroup>, j: nat)
    requires Counted(seen, groups) && DistinctKeys(groups, GroupKey) && Included(n)
    requires j < |groups| && GroupKey(groups[j]) == KeyOf(n)
    ensures Counted(seen + [n], groups[j := groups[j].(count := groups[j].count + 1)])
  {
    forall k | 0 <= k < |groups|
      ensures CountWithKey(seen + [n], GroupKey(groups[k])) == CountWithKey(seen, GroupKey(groups[k])) + (if k == j then 1 else 0)
    {
      CountAppend(seen, [n], GroupKey(groups[k]));
    }
  }

  lemma BumpFounded(seen: seq<NumberRecord>, n: NumberRecord, groups: seq<CountryGroup>, j: nat)
    requires AllFounded(seen, groups)
    requires j < |groups|
    ensures AllFounded(seen + [n], groups[j := groups[j].(count := groups[j].count + 1)])
  {
    forall k | 0 <= k < |groups|
      ensures FirstWithKeyOf(seen + [n], GroupKey(groups[k])) == FirstWithKeyOf(seen, GroupKey(groups[k]))
    {
      CountAppend(seen, [n], GroupKey(groups[k]));
    }
  }

  lemma BumpCovered(seen: seq<NumberRecord>, n: NumberRecord, groups: seq<CountryGroup>, j: nat)
    requires Covered(seen, groups)
    requires j < |groups| && GroupKey(groups[j]) == KeyOf(n)
    ensures Covered(seen + [n], groups[j := groups[j].(count := groups[j].count + 1)])
  {
    var r := groups[j := groups[j].(count := groups[j].count + 1)];
    assert forall k :: 0 <= k < |r| ==> GroupKey(r[k]) == GroupKey(groups[k]);
    assert KeySet(r, GroupKey) == KeySet(groups, GroupKey);
    forall key | key !in KeySet(r, GroupKey) ensures CountWithKey(seen + [n], key) == 0 {
      CountAppend(seen, [n], key);
    }
  }

  lemma TallyNew(seen: seq<NumberRecord>, n: NumberRecord, groups: seq<CountryGroup>)
    requires Tally(seen, groups) && Included(n)
    requires KeyOf(n) !in KeySet(groups, GroupKey)
    ensures Tally(seen + [n], groups + [CountryGroup(n.country.value, n.countryCode.value, 1)])
  {
    var g := CountryGroup(n.country.value, n.countryCode.value, 1);
    assert GroupKey(g) == KeyOf(n);
    KeySetAppend(groups, [g], GroupKey);
    KeySetCons(g, [], GroupKey);
    assert [g] + [] == [g];
    assert KeySet([], GroupKey) == {};
    assert KeySet(groups + [g], GroupKey) == KeySet(groups, GroupKey) + {KeyOf(n)};
    NewDistinct(groups, g);
    NewCounts(seen, n, groups, g);
    NewFounded(seen, n, groups, g);
    NewCovered(seen, n, groups, g);
    CountAppend(seen, [n], "");
    SumAppend(groups, g);
  }

  lemma NewDistinct(groups: seq<CountryGroup>, g: CountryGroup)
    requires DistinctKeys(groups, GroupKey) && GroupKey(g) !in KeySet(groups, GroupKey)
    ensures DistinctKeys(groups + [g], GroupKey)
  {
    var r := groups + [g];
    assert forall k :: 0 <= k < |groups| ==> r[k] == groups[k] && GroupKey(groups[k]) in KeySet(groups, GroupKey);
  }

  lemma NewCounts(seen: seq<NumberRecord>, n: NumberRecord, groups: seq<CountryGroup>, g: CountryGroup)
    requires Counted(seen, groups) && Covered(seen, groups) && Included(n)
    requires g == CountryGroup(n.country.value, n.countryCode.value, 1) && GroupKey(g) == KeyOf(n)
    requires KeyOf(n) !in KeySet(groups, GroupKey)
    ensures Counted(seen + [n], groups + [g])
  {
    var r := groups + [g];
    forall k | 0 <= k < |r| ensures r[k].count >= 1 && r[k].count == CountWithKey(seen + [n], GroupKey(r[k])) {
      CountAppend(seen, [n], GroupKey(r[k]));
      if k < |groups| {
        assert r[k] == groups[k] && GroupKey(groups[k]) in KeySet(groups, GroupKey);
      }
    }
  }

  lemma NewFounded(seen: seq<NumberRecord>, n: NumberRecord, groups: seq<CountryGroup>, g: CountryGroup)
    requires AllFounded(seen, groups) && Covered(seen, groups) && Included(n)
    requires g == CountryGroup(n.country.value, n.countryCode.value, 1) && GroupKey(g) == KeyOf(n)
    requires KeyOf(n) !in KeySet(groups, GroupKey)
    ensures AllFounded(seen + [n], groups + [g])
  {
    var r := groups + [g];
    forall k | 0 <= k < |r| ensures Founded(seen + [n], r[k]) {
      CountAppend(seen, [n], GroupKey(r[k]));
      assert [n][1..] == [];
      if k < |groups| {
        assert r[k] == groups[k];
      }
    }
  }

  lemma NewCovered(seen: seq<NumberRecord>, n: NumberRecord, groups: seq<CountryGroup>, g: CountryGroup)
    requires Covered(seen, groups) && GroupKey(g) == KeyOf(n)
    requires KeySet(groups + [g], GroupKey) == KeySet(groups, GroupKey) + {KeyOf(n)}
    ensures Covered(seen + [n], groups + [g])
  {
    forall key | key !in KeySet(groups + [g], GroupKey) ensures CountWithKey(seen + [n], key) == 0 {
      CountAppend(seen, [n], key);
    }
  }

  /**
   The grouping loop: `groups` lists the map's values in insertion order. Every
   group counts exactly the included numbers with its key and keeps the name and
   code of the first of them; the keys are distinct and cover every included number;
   the counts add up to the number of included numbers.
   */
  method GroupCountries(ns: seq<NumberRecord>) returns (groups: seq<CountryGroup>)
    ensures DistinctKeys(groups, GroupKey)
    ensures forall k :: 0 <= k < |groups| ==> groups[k].count >= 1 && groups[k].count == CountWithKey(ns, GroupKey(groups[k]))
    ensures forall k :: 0 <= k < |groups| ==>
      var first := FirstWithKeyOf(ns, GroupKey(groups[k]));
      first.Some? && groups[k].country == first.value.country.value && groups[k].code == first.value.countryCode.value
    ensures forall i :: 0 <= i < |ns| && Included(ns[i]) ==> KeyOf(ns[i]) in KeySet(groups, GroupKey)
    ensures SumCounts(groups) == IncludedCount(ns)
  {
    groups := [];
    var i := 0;
    while i < |ns|
      invariant 0 <= i <= |ns|
      invariant Tally(ns[..i], groups)
    {
      assert ns[..i + 1] == ns[..i] + [ns[i]];
      AddKeepsTally(ns[..i], ns[i], groups);
      groups := AddNumber(groups, ns[i]);
      i := i + 1;
    }
    assert ns[..i] == ns;
    forall j | 0 <= j < |ns| && Included(ns[j]) ensures KeyOf(ns[j]) in KeySet(groups, GroupKey) {
      CountPositive(ns, j);
    }
  }

  /** An included number makes the count of its key positive. */
  lemma {:induction false} CountPositive(ns: seq<NumberRecord>, j: int)
    requires 0 <= j < |ns| && Included(ns[j])
    ensures CountWithKey(ns, KeyOf(ns[j])) >= 1
    decreases |ns|
  {
    if j > 0 {
      assert ns[1..][j - 1] == ns[j];
      CountPositive(ns[1..], j - 1);
    }
  }

  /** The code-point order on names that stands in for `localeCompare`: `a` sorts no later than `b`. */
  predicate NameLe(a: string, b: string)
    decreases |a|
  {
    a == [] || (b != [] && (a[0] < b[0] || (a[0] == b[0] && NameLe(a[1..], b[1..]))))
  }

  lemma {:induction false} NameLeTotal(a: string, b: string)
    ensures NameLe(a, b) || NameLe(b, a)
    decreases |a|
  {
    if a != [] && b != [] && a[0] == b[0] {
      NameLeTotal(a[1..], b[1..]);
    }
  }

  predicate SortedByName(gs: seq<CountryGroup>) {
    forall k :: 0 <= k < |gs| - 1 ==> NameLe(gs[k].country, gs[k + 1].country)
  }

  /** `g` inserted before the first group it sorts no later than. */
  function Insert(g: CountryGroup, sorted: seq<CountryGroup>): (r: seq<CountryGroup>)
    requires SortedByName(sorted)
    ensures SortedByName(r)
    ensures multiset(r) == multiset(sorted) + multiset{g}
    ensures |r| == |sorted| + 1
    ensures r[0] == g || (|sorted| > 0 && r[0] == sorted[0])
    decreases |sorted|
  {
    if |sorted| == 0 then [g]
    else if NameLe(g.country, sorted[0].country) then [g] + sorted
    else
      NameLeTotal(g.country, sorted[0].country);
      var rest := Insert(g, sorted[1..]);
      assert sorted == [sorted[0]] + sorted[1..];
      [sorted[0]] + rest
  }

  /** The sort of `.sort((a, b) => a.country.localeCompare(b.country))`: an ordered permutation. */
  function SortByName(gs: seq<CountryGroup>): (r: seq<CountryGroup>)
    ensures SortedByName(r)
    ensures multiset(r) == multiset(gs)
    ensures |r| == |gs|
    decreases |gs|
  {
    if |gs| == 0 then []
    else
      assert gs == [gs[0]] + gs[1..];
      Insert(gs[0], SortByName(gs[1..]))
  }

  /** The body of the countries response: its `count` and its `countries`. */
  datatype CountriesResponse = CountriesResponse(count: nat, countries: seq<CountryGroup>)

  /**
   The countries route over the (cached) number list: the groups sorted by name, with
   `count` the number of groups.
   */
  method ListCountries(ns: seq<NumberRecord>) returns (r: CountriesResponse)
    ensures r.count == |r.countries| && SortedByName(r.countries)
    ensures forall k :: 0 <= k < |r.countries| ==> r.countries[k].count >= 1 && r.countries[k].count == CountWithKey(ns, GroupKey(r.countries[k]))
    ensures forall i :: 0 <= i < |ns| && Included(ns[i]) ==> KeyOf(ns[i]) in KeySet(r.countries, GroupKey)
  {
    var groups := GroupCountries(ns);
    var sorted := SortByName(groups);
    PermutationKeeps(sorted, groups, (g: CountryGroup) => g.count >= 1 && g.count == CountWithKey(ns, GroupKey(g)));
    PermutationKeySet(sorted, groups, GroupKey);
    r := CountriesResponse(|sorted|, sorted);
  }
}
