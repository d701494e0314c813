/** `searchSpecificDestinations`: the search by name that runs when no category
    selected anything. Countries are scanned first (a matching country name brings in
    up to two of its cities, then each city is tested by its own name), then temples,
    then beaches; the city, temple and beach tests skip a name already collected. */
module FallbackSearch {
  import opened Text
  import opened TravelData

  /** The lower-cased name of `d` contains `term`. */
  predicate NameHit(term: string, d: Destination) {
    Includes(Lower(d.name), term)
  }

  /** The lower-cased name of `c` contains `term`. */
  predicate CountryNameHit(term: string, c: Country) {
    Includes(Lower(c.name), term)
  }

  /** Some entry of `results` is called `name`. */
  predicate HasName(results: seq<Destination>, name: string) {
    exists k :: 0 <= k < |results| && results[k].name == name
  }

  /** One test of a city, temple or beach scan. */
  function NameStep(term: string, d: Destination, acc: seq<Destination>): seq<Destination> {
    if NameHit(term, d) && !HasName(acc, d.name) then acc + [d] else acc
  }

  /** A city, temple or beach scan over `xs`, in order, onto `acc`. */
  function NameScan(term: string, xs: seq<Destination>, acc: seq<Destination>): seq<Destination>
    decreases |xs|
  {
    if xs == [] then acc else NameScan(term, xs[1..], NameStep(term, xs[0], acc))
  }

  /** The cities a country contributes because its own name matches: its first two. */
  function CountryNameCities(term: string, c: Country): seq<Destination> {
    if CountryNameHit(term, c) && HasCities(c) then Take(c.cities.value, 2) else []
  }

  /** One country: its name test, then the scan of its cities. A country without a
      city list passes the name test harmlessly and then throws, as iterating over a
      missing list does. */
  function CountryStep(term: string, c: Country, acc: seq<Destination>): Completion<seq<Destination>> {
    var pushed := acc + CountryNameCities(term, c);
    match c.cities
    case None => Throws
    case Some(cities) => Normal(NameScan(term, cities, pushed))
  }

  function CountriesScan(term: string, cs: seq<Country>, acc: seq<Destination>): Completion<seq<Destination>>
    decreases |cs|
  {
    if cs == [] then Normal(acc)
    else
      match CountryStep(term, cs[0], acc)
      case Throws => Throws
      case Normal(next) => CountriesScan(term, cs[1..], next)
  }

  /** The whole fallback, appending to `acc`; an absent collection is skipped. */
  function Fallback(term: string, data: Dataset, acc: seq<Destination>): Completion<seq<Destination>> {
    match CountriesScan(term, OrEmpty(data.countries), acc)
    case Throws => Throws
    case Normal(afterCountries) =>
      Normal(NameScan(term, OrEmpty(data.beaches), NameScan(term, OrEmpty(data.temples), afterCountries)))
  }

  /** `searchSpecificDestinations(term, results)`, with the caller's array passed in as
      `start` and its final contents returned. */
  method SearchSpecificDestinations(term: string, data: Dataset, start: seq<Destination>)
    returns (outcome: Completion<seq<Destination>>)
    ensures outcome == Fallback(term, data, start)
  {
    var results := start;
    if data.countries.Some? {
      var afterCountries := ScanCountries(term, data.countries.value, results);
      if afterCountries.Throws? {
        return Throws;
      }
      results := afterCountries.value;
    }
    if data.temples.Some? {
      results := ScanByName(term, data.temples.value, results);
    }
    if data.beaches.Some? {
      results := ScanByName(term, data.beaches.value, results);
    }
    outcome := Normal(results);
  }

  /** The `forEach` over the countries: a matching country name pushes the first two
      cities, then the country's cities are scanned by name; a country without a city
      list throws at that scan. */
  method ScanCountries(term: string, countries: seq<Country>, start: seq<Destination>)
    returns (outcome: Completion<seq<Destination>>)
    ensures outcome == CountriesScan(term, countries, start)
  {
    var results := start;
    var i := 0;
    while i < |countries|
      invariant 0 <= i <= |countries|
      invariant CountriesScan(term, countries[i..], results) == CountriesScan(term, countries, start)
    {
      var country := countries[i];
      assert countries[i..][1..] == countries[i + 1..];
      ghost var before := results;
      if CountryNameHit(term, country) {
        if HasCities(country) {
          results := results + Take(country.cities.value, 2);
        }
      }
      if country.cities.None? {
        return Throws;
      }
      assert results == before + CountryNameCities(term, country);
      results := ScanByName(term, country.cities.value, results);
      assert CountryStep(term, country, before) == Normal(results);
      i := i + 1;
    }
    assert countries[i..] == [];
    outcome := Normal(results);
  }

  /** One `forEach` over cities, temples or beaches: push each entry whose lower-cased
      name contains the term and whose name is not yet among the results. */
  method ScanByName(term: string, xs: seq<Destination>, start: seq<Destination>)
    returns (results: seq<Destination>)
    ensures results == NameScan(term, xs, start)
  {
    results := start;
    var j := 0;
    while j < |xs|
      invariant 0 <= j <= |xs|
      invariant NameScan(term, xs[j..], results) == NameScan(term, xs, start)
    {
      var x := xs[j];
      assert xs[j..][1..] == xs[j + 1..];
      if NameHit(term, x) && !HasName(results, x.name) {
        results := results + [x];
      }
      j := j + 1;
    }
    assert xs[j..] == [];
  }

  // ---------------------------------------------------------------- the scans

  /** A sequence whose elements occur in `b` in the same order. */
  ghost predicate IsSubsequence<T>(a: seq<T>, b: seq<T>)
    decreases |b|
  {
    a == [] || (b != [] && ((a[0] == b[0] && IsSubsequence(a[1..], b[1..])) || IsSubsequence(a, b[1..])))
  }

  /** A name present in a prefix is present in the whole. */
  lemma HasNameExtends(a: seq<Destination>, b: seq<Destination>, name: string)
    requires HasName(a, name) && |a| <= |b| && b[..|a|] == a
    ensures HasName(b, name)
  {
    var k :| 0 <= k < |a| && a[k].name == name;
    assert b[k] == a[k];
  }

  /** A city, temple or beach scan only appends: each entry it adds is an entry of the
      scanned collection whose name contains the term and whose name no earlier
      entry has. */
  lemma {:induction false} NameScanAppends(term: string, xs: seq<Destination>, acc: seq<Destination>)
    ensures var r := NameScan(term, xs, acc);
            && |acc| <= |r| && r[..|acc|] == acc
            && forall k :: |acc| <= k < |r| ==> r[k] in xs && NameHit(term, r[k]) && !HasName(r[..k], r[k].name)
  {
    if xs != [] {
      var next := NameStep(term, xs[0], acc);
      NameScanAppends(term, xs[1..], next);
      var r := NameScan(term, xs, acc);
      assert r == NameScan(term, xs[1..], next);
      assert r[..|acc|] == r[..|next|][..|acc|];
      forall k | |acc| <= k < |r|
        ensures r[k] in xs && NameHit(term, r[k]) && !HasName(r[..k], r[k].name)
      {
        if k < |next| {
          assert next == acc + [xs[0]] && r[k] == xs[0];
          assert r[..k] == acc;
        } else {
          assert r[k] in xs[1..];
        }
      }
    }
  }

  /** The entries a scan adds come in the order of the scanned collection. */
  lemma {:induction false} NameScanInOrder(term: string, xs: seq<Destination>, acc: seq<Destination>)
    ensures |acc| <= |NameScan(term, xs, acc)|
    ensures IsSubsequence(NameScan(term, xs, acc)[|acc|..], xs)
  {
    NameScanAppends(term, xs, acc);
    if xs != [] {
      var next := NameStep(term, xs[0], acc);
      NameScanInOrder(term, xs[1..], next);
      NameScanAppends(term, xs[1..], next);
      var r := NameScan(term, xs, acc);
      var added := r[|acc|..];
      if |next| == |acc| {
        assert added == r[|next|..];
      } else {
        assert added[0] == xs[0] && added[1..] == r[|next|..];
      }
    }
  }

  /** A scan misses nothing: after it, every entry of the collection whose name
      contains the term has its name in the result. */
  lemma {:induction false} NameScanComplete(term: string, xs: seq<Destination>, acc: seq<Destination>)
    ensures forall x :: x in xs && NameHit(term, x) ==> HasName(NameScan(term, xs, acc), x.name)
  {
    if xs != [] {
      var next := NameStep(term, xs[0], acc);
      var r := NameScan(term, xs, acc);
      NameScanComplete(term, xs[1..], next);
      NameScanAppends(term, xs[1..], next);
      if NameHit(term, xs[0]) {
        if !HasName(acc, xs[0].name) {
          assert next[|acc|].name == xs[0].name;
        } else {
          HasNameExtends(acc, next, xs[0].name);
        }
        HasNameExtends(next, r, xs[0].name);
      }
      forall x | x in xs && NameHit(term, x) ensures HasName(r, x.name) {
        if x != xs[0] {
          assert x in xs[1..];
        }
      }
    }
  }

  /** A scan onto a list of distinct names keeps the names distinct. */
  lemma NameScanKeepsDistinct(term: string, xs: seq<Destination>, acc: seq<Destination>)
    requires DistinctNames(acc)
    ensures DistinctNames(NameScan(term, xs, acc))
  {
    NameScanAppends(term, xs, acc);
    var r := NameScan(term, xs, acc);
    forall i, j | 0 <= i < j < |r| ensures r[i].name != r[j].name {
      if j >= |acc| {
        assert r[..j][i] == r[i];
      } else {
        assert r[i] == acc[i] && r[j] == acc[j];
      }
    }
  }

  // ---------------------------------------------------------------- the countries

  /** `d` is one of the first two cities of a country in `cs` whose name contains the term. */
  ghost predicate ByCountryName(term: string, cs: seq<Country>, d: Destination) {
    exists c :: c in cs && CountryNameHit(term, c) && d in Take(Cities(c), 2)
  }

  /** `d` is a city of some country in `cs`. */
  ghost predicate CityOf(cs: seq<Country>, d: Destination) {
    exists c :: c in cs && d in Cities(c)
  }

  /** One country appends its name-matched cities first and then its own name
      matches, each of the latter with a name not collected before it. */
  lemma CountryStepAppends(term: string, c: Country, acc: seq<Destination>)
    requires c.cities.Some?
    ensures CountryStep(term, c, acc).Normal?
    ensures var r := CountryStep(term, c, acc).value;
            var front := CountryNameCities(term, c);
            && |acc| + |front| <= |r| && r[..|acc| + |front|] == acc + front
            && (front != [] ==> CountryNameHit(term, c) && front == Take(Cities(c), 2))
            && forall k :: |acc| + |front| <= k < |r| ==>
                 r[k] in Cities(c) && NameHit(term, r[k]) && !HasName(r[..k], r[k].name)
  {
    NameScanAppends(term, c.cities.value, acc + CountryNameCities(term, c));
  }

  /** The country scan throws exactly when some country has no city list. */
  lemma {:induction false} CountriesScanThrowsIff(term: string, cs: seq<Country>, acc: seq<Destination>)
    ensures CountriesScan(term, cs, acc) == Throws <==> exists c :: c in cs && c.cities.None?
  {
    if cs != [] {
      match CountryStep(term, cs[0], acc)
      case Throws =>
      case Normal(next) =>
        CountriesScanThrowsIff(term, cs[1..], next);
        if exists c :: c in cs && c.cities.None? {
          var c :| c in cs && c.cities.None?;
          assert c in cs[1..];
        }
    }
  }

  /** What the country scan appends: cities of the scanned countries, each one either
      among the first two cities of a country whose name matches, or a city whose own
      name matches and was not collected before it. */
  lemma {:induction false} CountriesScanSound(term: string, cs: seq<Country>, acc: seq<Destination>)
    requires CountriesScan(term, cs, acc).Normal?
    ensures var r := CountriesScan(term, cs, acc).value;
            && |acc| <= |r| && r[..|acc|] == acc
            && forall k :: |acc| <= k < |r| ==>
                 && CityOf(cs, r[k])
                 && (ByCountryName(term, cs, r[k]) || (NameHit(term, r[k]) && !HasName(r[..k], r[k].name)))
  {
    if cs != [] {
      var c := cs[0];
      var next := CountryStep(term, c, acc).value;
      CountryStepAppends(term, c, acc);
      CountriesScanSound(term, cs[1..], next);
      var r := CountriesScan(term, cs, acc).value;
      assert r == CountriesScan(term, cs[1..], next).value;
      assert r[..|acc|] == r[..|next|][..|acc|];
      var front := CountryNameCities(term, c);
      forall k | |acc| <= k < |r|
        ensures CityOf(cs, r[k])
        ensures ByCountryName(term, cs, r[k]) || (NameHit(term, r[k]) && !HasName(r[..k], r[k].name))
      {
        if k < |acc| + |front| {
          assert r[k] == next[k] == front[k - |acc|];
          assert r[k] in Take(Cities(c), 2);
          assert c in cs;
        } else if k < |next| {
          assert r[k] == next[k];
          assert r[..k] == next[..k];
          assert r[k] in Cities(c);
          assert c in cs;
        } else {
          FromLaterCountry(term, cs, r[k]);
        }
      }
    }
  }

  /** What holds of a later country holds of the whole list. */
  lemma FromLaterCountry(term: string, cs: seq<Country>, d: Destination)
    requires cs != []
    ensures CityOf(cs[1..], d) ==> CityOf(cs, d)
    ensures ByCountryName(term, cs[1..], d) ==> ByCountryName(term, cs, d)
  {
    if CityOf(cs[1..], d) {
      var c :| c in cs[1..] && d in Cities(c);
      assert c in cs;
    }
    if ByCountryName(term, cs[1..], d) {
      var c :| c in cs[1..] && CountryNameHit(term, c) && d in Take(Cities(c), 2);
      assert c in cs;
    }
  }

  /** The country scan misses nothing: the first two cities of every country whose
      name matches are collected, and every city whose name matches has its name
      among the results. */
  lemma CountriesScanComplete(term: string, cs: seq<Country>, acc: seq<Destination>)
    requires CountriesScan(term, cs, acc).Normal?
    ensures var r := CountriesScan(term, cs, acc).value;
            && (forall c, d :: c in cs && CountryNameHit(term, c) && d in Take(Cities(c), 2) ==> d in r)
            && (forall c, d :: c in cs && d in Cities(c) && NameHit(term, d) ==> HasName(r, d.name))
  {
    CountriesScanKeepsCountryCities(term, cs, acc);
    CountriesScanKeepsNamedCities(term, cs, acc);
  }

  /** The first two cities of every country whose name matches are collected. */
  lemma {:induction false} CountriesScanKeepsCountryCities(term: string, cs: seq<Country>, acc: seq<Destination>)
    requires CountriesScan(term, cs, acc).Normal?
    ensures var r := CountriesScan(term, cs, acc).value;
            forall c, d :: c in cs && CountryNameHit(term, c) && d in Take(Cities(c), 2) ==> d in r
  {
    if cs != [] {
      var c0 := cs[0];
      var next := CountryStep(term, c0, acc).value;
      var r := CountriesScan(term, cs, acc).value;
      assert r == CountriesScan(term, cs[1..], next).value;
      CountryStepAppends(term, c0, acc);
      CountriesScanKeepsCountryCities(term, cs[1..], next);
      CountriesScanSound(term, cs[1..], next);
      forall c, d | c in cs && CountryNameHit(term, c) && d in Take(Cities(c), 2) ensures d in r {
        if c == c0 {
          var front := CountryNameCities(term, c0);
          var i :| 0 <= i < |front| && front[i] == d;
          assert next[|acc| + i] == d;
          assert r[|acc| + i] == d;
        } else {
          assert c in cs[1..];
        }
      }
    }
  }

  /** Every city whose name matches has its name among the results. */
  lemma {:induction false} CountriesScanKeepsNamedCities(term: string, cs: seq<Country>, acc: seq<Destination>)
    requires CountriesScan(term, cs, acc).Normal?
    ensures var r := CountriesScan(term, cs, acc).value;
            forall c, d :: c in cs && d in Cities(c) && NameHit(term, d) ==> HasName(r, d.name)
  {
    if cs != [] {
      var c0 := cs[0];
      var next := CountryStep(term, c0, acc).value;
      var r := CountriesScan(term, cs, acc).value;
      assert r == CountriesScan(term, cs[1..], next).value;
      CountryStepAppends(term, c0, acc);
      NameScanComplete(term, c0.cities.value, acc + CountryNameCities(term, c0));
      CountriesScanKeepsNamedCities(term, cs[1..], next);
      CountriesScanSound(term, cs[1..], next);
      forall c, d | c in cs && d in Cities(c) && NameHit(term, d) ensures HasName(r, d.name) {
        if c == c0 {
          HasNameExtends(next, r, d.name);
        } else {
          assert c in cs[1..];
        }
      }
    }
  }

  // ---------------------------------------------------------------- the whole fallback

  /** The fallback throws exactly when the dataset has a country without a city list. */
  lemma FallbackThrowsIff(term: string, data: Dataset, acc: seq<Destination>)
    ensures Fallback(term, data, acc) == Throws <==>
              exists c :: c in OrEmpty(data.countries) && c.cities.None?
  {
    CountriesScanThrowsIff(term, OrEmpty(data.countries), acc);
  }

  /** The order of the fallback's stages: what the countries give comes first, then the
      temples whose names match, then the beaches whose names match; every temple and
      beach appended has a name not collected before it. */
  lemma FallbackLayout(term: string, data: Dataset, acc: seq<Destination>)
    requires Fallback(term, data, acc).Normal?
    ensures CountriesScan(term, OrEmpty(data.countries), acc).Normal?
    ensures var r := Fallback(term, data, acc).value;
            var a := |CountriesScan(term, OrEmpty(data.countries), acc).value|;
            var t := |NameScan(term, OrEmpty(data.temples), CountriesScan(term, OrEmpty(data.countries), acc).value)|;
            && |acc| <= a <= t <= |r| && r[..|acc|] == acc
            && (forall k :: |acc| <= k < a ==>
                  && CityOf(OrEmpty(data.countries), r[k])
                  && (ByCountryName(term, OrEmpty(data.countries), r[k]) || (NameHit(term, r[k]) && !HasName(r[..k], r[k].name))))
            && (forall k :: a <= k < t ==> r[k] in OrEmpty(data.temples) && NameHit(term, r[k]) && !HasName(r[..k], r[k].name))
            && (forall k :: t <= k < |r| ==> r[k] in OrEmpty(data.beaches) && NameHit(term, r[k]) && !HasName(r[..k], r[k].name))
  {
    var cs := OrEmpty(data.countries);
    var afterCountries := CountriesScan(term, cs, acc).value;
    var afterTemples := NameScan(term, OrEmpty(data.temples), afterCountries);
    var r := Fallback(term, data, acc).value;
    CountriesScanSound(term, cs, acc);
    NameScanAppends(term, OrEmpty(data.temples), afterCountries);
    NameScanAppends(term, OrEmpty(data.beaches), afterTemples);
    PrefixKept(r, afterTemples);
    PrefixKept(afterTemples, afterCountries);
    assert r[..|acc|] == afterCountries[..|acc|];
  }

  /** A list that extends `p` agrees with it on every position of `p` and on every
      prefix of `p`. */
  lemma PrefixKept(r: seq<Destination>, p: seq<Destination>)
    requires |p| <= |r| && r[..|p|] == p
    ensures forall k :: 0 <= k <= |p| ==> r[..k] == p[..k]
    ensures forall k :: 0 <= k < |p| ==> r[k] == p[k]
  {
    forall k | 0 <= k <= |p| ensures r[..k] == p[..k] {
      assert r[..k] == r[..|p|][..k];
    }
  }

  /** Every entry the fallback appends is an element of the dataset, and is either
      among the first two cities of a country whose name contains the term, or has a
      name containing the term itself. */
  lemma FallbackSound(term: string, data: Dataset, acc: seq<Destination>)
    requires Fallback(term, data, acc).Normal?
    ensures var r := Fallback(term, data, acc).value;
            && |acc| <= |r| && r[..|acc|] == acc
            && forall k :: |acc| <= k < |r| ==>
                 && InDataset(data, r[k])
                 && (ByCountryName(term, OrEmpty(data.countries), r[k]) || NameHit(term, r[k]))
  {
    FallbackLayout(term, data, acc);
    var r := Fallback(term, data, acc).value;
    forall k | |acc| <= k < |r|
      ensures InDataset(data, r[k])
    {
      if CityOf(OrEmpty(data.countries), r[k]) {
        var c :| c in OrEmpty(data.countries) && r[k] in Cities(c);
      }
    }
  }

  /** The fallback misses nothing: the first two cities of every country whose name
      matches are collected, and every city, temple and beach whose name matches has
      its name among the results. */
  lemma FallbackComplete(term: string, data: Dataset, acc: seq<Destination>)
    requires Fallback(term, data, acc).Normal?
    ensures var r := Fallback(term, data, acc).value;
            var cs := OrEmpty(data.countries);
            && (forall c, d :: c in cs && CountryNameHit(term, c) && d in Take(Cities(c), 2) ==> d in r)
            && (forall c, d :: c in cs && d in Cities(c) && NameHit(term, d) ==> HasName(r, d.name))
            && (forall d :: d in OrEmpty(data.temples) && NameHit(term, d) ==> HasName(r, d.name))
            && (forall d :: d in OrEmpty(data.beaches) && NameHit(term, d) ==> HasName(r, d.name))
  {
    var cs := OrEmpty(data.countries);
    var afterCountries := CountriesScan(term, cs, acc).value;
    var afterTemples := NameScan(term, OrEmpty(data.temples), afterCountries);
    var r := Fallback(term, data, acc).value;
    CountriesScanComplete(term, cs, acc);
    NameScanComplete(term, OrEmpty(data.temples), afterCountries);
    NameScanComplete(term, OrEmpty(data.beaches), afterTemples);
    NameScanAppends(term, OrEmpty(data.temples), afterCountries);
    NameScanAppends(term, OrEmpty(data.beaches), afterTemples);
    forall c, d | c in cs && CountryNameHit(term, c) && d in Take(Cities(c), 2) ensures d in r {
      assert d in afterCountries;
      assert d in afterTemples[..|afterCountries|];
      assert d in r[..|afterTemples|];
    }
    forall c, d | c in cs && d in Cities(c) && NameHit(term, d) ensures HasName(r, d.name) {
      HasNameExtends(afterCountries, afterTemples, d.name);
      HasNameExtends(afterTemples, r, d.name);
    }
    forall d | d in OrEmpty(data.temples) && NameHit(term, d) ensures HasName(r, d.name) {
      HasNameExtends(afterTemples, r, d.name);
    }
  }

  /** Something in the dataset answers to the term by name. */
  ghost predicate AnyNameHit(term: string, data: Dataset) {
    || (exists c :: c in OrEmpty(data.countries) && CountryNameHit(term, c) && HasCities(c))
    || (exists c, d :: c in OrEmpty(data.countries) && d in Cities(c) && NameHit(term, d))
    || (exists d :: d in OrEmpty(data.temples) && NameHit(term, d))
    || (exists d :: d in OrEmpty(data.beaches) && NameHit(term, d))
  }

  /** Started from nothing, the fallback comes back empty exactly when no name in the
      dataset answers to the term (and it does not throw). */
  lemma FallbackEmptyIff(term: string, data: Dataset)
    requires Fallback(term, data, []).Normal?
    ensures Fallback(term, data, []).value == [] <==> !AnyNameHit(term, data)
  {
    var r := Fallback(term, data, []).value;
    FallbackSound(term, data, []);
    FallbackComplete(term, data, []);
    if r != [] {
      if ByCountryName(term, OrEmpty(data.countries), r[0]) {
        var c :| c in OrEmpty(data.countries) && CountryNameHit(term, c) && r[0] in Take(Cities(c), 2);
        assert HasCities(c);
      } else {
        assert InDataset(data, r[0]);
        if r[0] !in OrEmpty(data.beaches) && r[0] !in OrEmpty(data.temples) {
          var c :| c in OrEmpty(data.countries) && r[0] in Cities(c);
        }
      }
    }
    if AnyNameHit(term, data) {
      if exists c :: c in OrEmpty(data.countries) && CountryNameHit(term, c) && HasCities(c) {
        var c :| c in OrEmpty(data.countries) && CountryNameHit(term, c) && HasCities(c);
        assert c.cities.value[0] in Take(Cities(c), 2);
        assert c.cities.value[0] in r;
      }
    }
  }

  /** Without a matching country name, the country stage only runs checked scans,
      so it keeps the names distinct. */
  lemma {:induction false} CountriesScanKeepsDistinct(term: string, cs: seq<Country>, acc: seq<Destination>)
    requires DistinctNames(acc)
    requires CountriesScan(term, cs, acc).Normal?
    requires forall c :: c in cs ==> !(CountryNameHit(term, c) && HasCities(c))
    ensures DistinctNames(CountriesScan(term, cs, acc).value)
  {
    if cs != [] {
      var c := cs[0];
      assert c.cities.Some?;
      assert acc + CountryNameCities(term, c) == acc;
      NameScanKeepsDistinct(term, c.cities.value, acc);
      var next := CountryStep(term, c, acc).value;
      forall d | d in cs[1..] ensures !(CountryNameHit(term, d) && HasCities(d)) {
        assert d in cs;
      }
      CountriesScanKeepsDistinct(term, cs[1..], next);
    }
  }

  /** Names repeat only through a matching country name: when no country with cities
      has a name containing the term, the fallback's result has distinct names. */
  lemma FallbackDistinctNames(term: string, data: Dataset)
    requires Fallback(term, data, []).Normal?
    requires forall c :: c in OrEmpty(data.countries) ==> !(CountryNameHit(term, c) && HasCities(c))
    ensures DistinctNames(Fallback(term, data, []).value)
  {
    var countries := CountriesScan(term, OrEmpty(data.countries), []);
    CountriesScanKeepsDistinct(term, OrEmpty(data.countries), []);
    NameScanKeepsDistinct(term, OrEmpty(data.temples), countries.value);
    NameScanKeepsDistinct(term, OrEmpty(data.beaches), NameScan(term, OrEmpty(data.temples), countries.value));
  }

  /** The cities a matching country name brings in are appended without the name
      test, so the fallback can return one name twice: two countries whose names
      both contain "japan", each listing a city called "Tokyo". */
  lemma FallbackMayRepeatName()
    ensures var tokyo1 := Destination("Tokyo", "capital", "tokyo.jpg");
            var tokyo2 := Destination("Tokyo", "namesake", "tokyo2.jpg");
            var data := Dataset(None, None, Some([Country("Japan", Some([tokyo1])), Country("New Japan", Some([tokyo2]))]));
            && Fallback("japan", data, []) == Normal([tokyo1, tokyo2])
            && !DistinctNames(Fallback("japan", data, []).value)
  {
    var tokyo1 := Destination("Tokyo", "capital", "tokyo.jpg");
    var tokyo2 := Destination("Tokyo", "namesake", "tokyo2.jpg");
    var japan := Country("Japan", Some([tokyo1]));
    var newJapan := Country("New Japan", Some([tokyo2]));
    JapanWitnesses();
    assert NameScan("japan", [tokyo1], [tokyo1]) == [tokyo1] by {
      assert !NameHit("japan", tokyo1);
    }
    assert NameScan("japan", [tokyo2], [tokyo1, tokyo2]) == [tokyo1, tokyo2] by {
      assert !NameHit("japan", tokyo2);
    }
    assert CountryNameCities("japan", japan) == [tokyo1] by {
      assert CountryNameHit("japan", japan) && Take([tokyo1], 2) == [tokyo1];
    }
    assert CountryNameCities("japan", newJapan) == [tokyo2] by {
      assert CountryNameHit("japan", newJapan) && Take([tokyo2], 2) == [tokyo2];
    }
    assert [] + [tokyo1] == [tokyo1] && [tokyo1] + [tokyo2] == [tokyo1, tokyo2];
    assert CountryStep("japan", japan, []) == Normal([tokyo1]);
    assert CountryStep("japan", newJapan, [tokyo1]) == Normal([tokyo1, tokyo2]);
    var cs := [japan, newJapan];
    assert cs[1..] == [newJapan];
    assert CountriesScan("japan", [newJapan], [tokyo1]) == Normal([tokyo1, tokyo2]) by {
      assert [newJapan][1..] == [];
    }
    assert CountriesScan("japan", cs, []) == Normal([tokyo1, tokyo2]);
    assert [tokyo1, tokyo2][0].name == [tokyo1, tokyo2][1].name;
  }

  /** The string facts behind the example above. */
  lemma JapanWitnesses()
    ensures Includes(Lower("Japan"), "japan")
    ensures Includes(Lower("New Japan"), "japan")
    ensures !Includes(Lower("Tokyo"), "japan")
  {
    JapanMatches();
    NewJapanMatches();
    TokyoMisses();
  }

  lemma JapanMatches()
    ensures Includes(Lower("Japan"), "japan")
  {
    LowerAscii("Japan", "japan");
    IncludesSelf("japan");
  }

  lemma NewJapanMatches()
    ensures Includes(Lower("New Japan"), "japan")
  {
    LowerAscii("New Japan", "new japan");
    IncludesInfix("new ", "japan", "");
    assert "new japan" == "new " + "japan" + "";
  }

  lemma TokyoMisses()
    ensures !Includes(Lower("Tokyo"), "japan")
  {
    LowerAscii("Tokyo", "tokyo");
    forall i | 0 <= i <= |"tokyo"| - |"japan"|
      ensures !("japan" <= "tokyo"[i..])
    {
      assert "tokyo"[i..][0] != "japan"[0];
    }
  }

  /** Lower-casing a concrete string, character by character. */
  lemma LowerAscii(s: string, l: string)
    requires |s| == |l| && forall i :: 0 <= i < |s| ==> LowerChar(s[i]) == l[i]
    ensures Lower(s) == l
  {
  }
}
