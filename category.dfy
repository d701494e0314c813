/** The category path of `searchRecommendations`: a term that looks like one of the
    keywords for beaches, temples or countries selects a few entries of that collection. */
module CategorySearch {
  import opened Text
  import opened TravelData

  const BeachKeywords: seq<string> := ["beach", "beaches", "playa", "playas"]
  // The source lists "temple" twice and has no "temples"; "temples" still matches
  // because it contains "temple".
  const TempleKeywords: seq<string> := ["temple", "templos", "templo", "temple"]
  const CountryKeywords: seq<string> := ["country", "countries", "pa\U{ED}s", "paises"]

  /** Whether `term` contains some keyword or some keyword contains `term`, trying
      the keywords in order. */
  function MatchesCategory(term: string, keywords: seq<string>): bool {
    if keywords == [] then false
    else Includes(term, keywords[0]) || Includes(keywords[0], term) || MatchesCategory(term, keywords[1..])
  }

  /** The matcher holds exactly when some keyword is contained in the term or contains
      it; in particular it fails for an empty keyword list. */
  lemma {:induction false} MatchesCategoryIff(term: string, keywords: seq<string>)
    ensures MatchesCategory(term, keywords) <==>
              exists i :: 0 <= i < |keywords| && (Includes(term, keywords[i]) || Includes(keywords[i], term))
  {
    if keywords != [] {
      MatchesCategoryIff(term, keywords[1..]);
      if MatchesCategory(term, keywords[1..]) {
        var i :| 0 <= i < |keywords[1..]| && (Includes(term, keywords[1..][i]) || Includes(keywords[1..][i], term));
        assert keywords[1..][i] == keywords[i + 1];
      }
      if exists i :: 0 <= i < |keywords| && (Includes(term, keywords[i]) || Includes(keywords[i], term)) {
        var i :| 0 <= i < |keywords| && (Includes(term, keywords[i]) || Includes(keywords[i], term));
        if i > 0 {
          assert keywords[1..][i - 1] == keywords[i];
        }
      }
    }
  }

  /** A term equal to one of the keywords matches that category. */
  lemma KeywordMatches(keywords: seq<string>, i: nat)
    requires i < |keywords|
    ensures MatchesCategory(keywords[i], keywords)
  {
    IncludesSelf(keywords[i]);
    MatchesCategoryIff(keywords[i], keywords);
  }

  /** The empty term is contained in every keyword, so it selects every category
      that has a keyword. */
  lemma EmptyTermMatches(keywords: seq<string>)
    requires keywords != []
    ensures MatchesCategory([], keywords)
  {
    IncludesEmpty(keywords[0]);
    MatchesCategoryIff([], keywords);
  }

  // ---------------------------------------------------------------- the category policy

  function BeachPart(term: string, data: Dataset): seq<Destination> {
    if MatchesCategory(term, BeachKeywords) then Take(OrEmpty(data.beaches), 2) else []
  }

  function TemplePart(term: string, data: Dataset): seq<Destination> {
    if MatchesCategory(term, TempleKeywords) then Take(OrEmpty(data.temples), 2) else []
  }

  /** The first city of a country that has cities. */
  function FirstCity(c: Country): seq<Destination> {
    if HasCities(c) then [c.cities.value[0]] else []
  }

  /** The first city of country number `i`, when there is such a country and it has
      cities. */
  function LeadCity(cs: seq<Country>, i: nat): seq<Destination> {
    if i < |cs| && HasCities(cs[i]) then [cs[i].cities.value[0]] else []
  }

  function FirstCities(cs: seq<Country>): seq<Destination> {
    if cs == [] then [] else FirstCity(cs[0]) + FirstCities(cs[1..])
  }

  function CountryPart(term: string, data: Dataset): seq<Destination> {
    if MatchesCategory(term, CountryKeywords) then FirstCities(Take(OrEmpty(data.countries), 2)) else []
  }

  /** What the three category blocks push, in their fixed order. */
  function CategoryResults(term: string, data: Dataset): seq<Destination> {
    BeachPart(term, data) + TemplePart(term, data) + CountryPart(term, data)
  }

  /** The category blocks of `searchRecommendations`, pushing onto a fresh `results`. */
  method SearchCategories(term: string, data: Dataset) returns (results: seq<Destination>)
    ensures results == CategoryResults(term, data)
    ensures |results| <= 6
  {
    results := [];
    if MatchesCategory(term, BeachKeywords) {
      if data.beaches.Some? {
        results := results + Take(data.beaches.value, 2);
      }
    }
    assert results == BeachPart(term, data);
    if MatchesCategory(term, TempleKeywords) {
      if data.temples.Some? {
        results := results + Take(data.temples.value, 2);
      }
    }
    assert results == BeachPart(term, data) + TemplePart(term, data);
    if MatchesCategory(term, CountryKeywords) {
      if data.countries.Some? {
        results := PushFirstCities(Take(data.countries.value, 2), results);
      }
    }
    assert results == BeachPart(term, data) + TemplePart(term, data) + CountryPart(term, data);
    CategoryResultsBound(term, data);
  }

  /** The `forEach` over the chosen countries: each country with cities pushes its
      first city onto `results`. */
  method PushFirstCities(countries: seq<Country>, start: seq<Destination>) returns (results: seq<Destination>)
    ensures results == start + FirstCities(countries)
  {
    results := start;
    var i := 0;
    while i < |countries|
      invariant 0 <= i <= |countries|
      invariant results + FirstCities(countries[i..]) == start + FirstCities(countries)
    {
      var country := countries[i];
      assert countries[i..][1..] == countries[i + 1..];
      if HasCities(country) {
        results := results + [country.cities.value[0]];
      }
      i := i + 1;
    }
    assert countries[i..] == [];
  }

  // ---------------------------------------------------------------- properties

  /** Each country gives at most one city, and each city comes from one of the
      countries; every country with cities gives its first one. */
  lemma {:induction false} FirstCitiesFrom(cs: seq<Country>)
    ensures |FirstCities(cs)| <= |cs|
    ensures forall i :: 0 <= i < |cs| && HasCities(cs[i]) ==> cs[i].cities.value[0] in FirstCities(cs)
    ensures forall k :: 0 <= k < |FirstCities(cs)| ==>
              exists c :: c in cs && HasCities(c) && FirstCities(cs)[k] == c.cities.value[0]
    ensures FirstCities(cs) == [] <==> forall c :: c in cs ==> !HasCities(c)
  {
    if cs != [] {
      FirstCitiesFrom(cs[1..]);
      var r := FirstCities(cs);
      var rest := FirstCities(cs[1..]);
      forall k | 0 <= k < |r|
        ensures exists c :: c in cs && HasCities(c) && r[k] == c.cities.value[0]
      {
        if k < |FirstCity(cs[0])| {
          assert r[k] == cs[0].cities.value[0];
        } else {
          assert r[k] == rest[k - |FirstCity(cs[0])|];
          var c :| c in cs[1..] && HasCities(c) && rest[k - |FirstCity(cs[0])|] == c.cities.value[0];
          assert c in cs;
        }
      }
      forall i | 0 <= i < |cs| && HasCities(cs[i]) ensures cs[i].cities.value[0] in r {
        if i > 0 {
          assert cs[1..][i - 1] == cs[i];
        }
      }
      if r == [] {
        forall c | c in cs ensures !HasCities(c) {
          if c != cs[0] {
            assert c in cs[1..];
          }
        }
      }
    }
  }

  /** The countries contribute in their own order, one after the other: the cities of
      a concatenation are the cities of its parts, so a country gives nothing but its
      own first city, exactly once. */
  lemma {:induction false} FirstCitiesAppend(a: seq<Country>, b: seq<Country>)
    ensures FirstCities(a + b) == FirstCities(a) + FirstCities(b)
  {
    if a != [] {
      assert (a + b)[1..] == a[1..] + b;
      FirstCitiesAppend(a[1..], b);
    } else {
      assert a + b == b;
    }
  }

  /** At most two beaches, two temples and two cities are selected. */
  lemma CategoryResultsBound(term: string, data: Dataset)
    ensures |CategoryResults(term, data)| <= 6
  {
    FirstCitiesFrom(Take(OrEmpty(data.countries), 2));
  }

  /** The layout of the category result: the first (up to) two beaches when the beach
      keywords match, then likewise the first two temples, then, when the country
      keywords match, the first city of the first country and then of the second,
      each only when that country has cities. Nothing else is selected. */
  lemma CategoryResultsLayout(term: string, data: Dataset)
    ensures var beaches, temples, cs := OrEmpty(data.beaches), OrEmpty(data.temples), OrEmpty(data.countries);
            var nb := if MatchesCategory(term, BeachKeywords) then Min(2, |beaches|) else 0;
            var nt := if MatchesCategory(term, TempleKeywords) then Min(2, |temples|) else 0;
            var tail := if MatchesCategory(term, CountryKeywords) then LeadCity(cs, 0) + LeadCity(cs, 1) else [];
            CategoryResults(term, data) == beaches[..nb] + temples[..nt] + tail
  {
    FirstCitiesOfTwo(OrEmpty(data.countries));
  }

  /** The first cities of the first two countries: the first country's, then the
      second's, each one only when that country has cities. */
  lemma FirstCitiesOfTwo(cs: seq<Country>)
    ensures FirstCities(Take(cs, 2)) == LeadCity(cs, 0) + LeadCity(cs, 1)
  {
    var two := Take(cs, 2);
    if |cs| == 1 {
      assert two == [cs[0]];
      assert FirstCities(two) == FirstCity(cs[0]) + FirstCities([]);
    } else if |cs| > 1 {
      assert two == [cs[0]] + [cs[1]];
      FirstCitiesAppend([cs[0]], [cs[1]]);
      assert FirstCities([cs[0]]) == FirstCity(cs[0]) + FirstCities([]);
      assert FirstCities([cs[1]]) == FirstCity(cs[1]) + FirstCities([]);
    }
  }

  /** Every selected entry is an element of the dataset. */
  lemma CategoryResultsInDataset(term: string, data: Dataset)
    ensures forall k :: 0 <= k < |CategoryResults(term, data)| ==> InDataset(data, CategoryResults(term, data)[k])
  {
    var r := CategoryResults(term, data);
    var bp, tp, cp := BeachPart(term, data), TemplePart(term, data), CountryPart(term, data);
    var nb, nt := |bp|, |tp|;
    FirstCitiesFrom(Take(OrEmpty(data.countries), 2));
    forall k | 0 <= k < |r| ensures InDataset(data, r[k]) {
      if k < nb {
        assert r[k] == bp[k];
        assert r[k] in OrEmpty(data.beaches);
      } else if k < nb + nt {
        assert r[k] == tp[k - nb];
        assert r[k] in OrEmpty(data.temples);
      } else {
        assert r[k] == cp[k - nb - nt];
        var c :| c in Take(OrEmpty(data.countries), 2) && HasCities(c) && r[k] == c.cities.value[0];
        assert c in OrEmpty(data.countries);
        assert r[k] in Cities(c);
      }
    }
  }

  /** The category path selects nothing exactly when no matched category has anything
      to give: no beaches, no temples, and none of the first two countries with a city. */
  lemma CategoryEmptyIff(term: string, data: Dataset)
    ensures CategoryResults(term, data) == [] <==>
              && !(MatchesCategory(term, BeachKeywords) && OrEmpty(data.beaches) != [])
              && !(MatchesCategory(term, TempleKeywords) && OrEmpty(data.temples) != [])
              && !(MatchesCategory(term, CountryKeywords) &&
                   exists c :: c in Take(OrEmpty(data.countries), 2) && HasCities(c))
  {
    FirstCitiesFrom(Take(OrEmpty(data.countries), 2));
  }
}
