/** Worked searches against small datasets: a beach query, a country query and a
    query that matches nothing. */
module Scenarios {
  import opened Text
  import opened TravelData
  import opened CategorySearch
  import opened FallbackSearch
  import opened Display
  import opened Recommendation

  /** A plain lower-case query without white space or marks is its own search term
      and its own normalised term. */
  lemma PlainQuery(raw: string)
    requires raw != []
    requires forall i :: 0 <= i < |raw| ==> 'a' <= raw[i] <= 'z'
    ensures SearchTerm(raw) == raw && Normalize(raw) == raw
  {
    assert !IsSpace(raw[0]) && !IsSpace(raw[|raw| - 1]);
    assert TrimStart(raw) == raw;
    assert TrimEnd(raw) == raw;
    forall i | 0 <= i < |raw| ensures LowerChar(raw[i]) == raw[i] && !IsCombiningMark(raw[i]) {
    }
    assert Lower(raw) == raw;
    assert StripMarks(raw) == raw;
  }

  /** A string without the letter z does not contain "zzz", and a non-empty one is
      not contained in it either. */
  lemma WithoutZ(s: string)
    requires forall i :: 0 <= i < |s| ==> s[i] != 'z'
    ensures !Includes(s, "zzz")
    ensures s != [] ==> !Includes("zzz", s)
  {
    forall i | 0 <= i <= |s| - 3 ensures !("zzz" <= s[i..]) {
      assert s[i..][0] == s[i];
    }
    if s != [] {
      forall i | 0 <= i <= 3 - |s| ensures !(s <= "zzz"[i..]) {
        assert "zzz"[i..][0] == 'z';
      }
    }
  }

  /** A search whose category path selects something shows those results. */
  lemma ByCategory(raw: string, data: Dataset, results: seq<Destination>)
    requires SearchTerm(raw) == raw && Normalize(raw) == raw && raw != []
    requires CategoryResults(raw, data) == results && results != [] && |results| <= MaxCards
    ensures Search(raw, data) == Cards(results)
  {
    SearchShowsCategories(raw, data);
    ShortListShownWhole(results, raw);
  }

  lemma SearchShowsCategories(raw: string, data: Dataset)
    requires SearchTerm(raw) != [] && CategoryResults(Normalize(SearchTerm(raw)), data) != []
    ensures Search(raw, data) == Rendered(CategoryResults(Normalize(SearchTerm(raw)), data), SearchTerm(raw))
  {
  }

  /** A search whose category path selects nothing and whose fallback finds nothing
      shows the "no results" message. */
  lemma ByNothing(raw: string, data: Dataset)
    requires SearchTerm(raw) == raw && Normalize(raw) == raw && raw != []
    requires CategoryResults(raw, data) == [] && Fallback(raw, data, []) == Normal([])
    ensures Search(raw, data) == Message(NoResultsText(raw))
  {
  }

  /** With three beaches, "beach" shows the first two. */
  lemma BeachQuery(b1: Destination, b2: Destination, b3: Destination)
    ensures Search("beach", Dataset(Some([b1, b2, b3]), None, None)) == Cards([b1, b2])
  {
    BeachSearch("beach", b1, b2, b3);
  }

  lemma BeachSearch(raw: string, b1: Destination, b2: Destination, b3: Destination)
    requires raw == "beach"
    ensures Search(raw, Dataset(Some([b1, b2, b3]), None, None)) == Cards([b1, b2])
  {
    BeachQueryCategories(b1, b2, b3);
    BeachIsPlain();
    ByCategory(raw, Dataset(Some([b1, b2, b3]), None, None), [b1, b2]);
  }

  lemma BeachQueryCategories(b1: Destination, b2: Destination, b3: Destination)
    ensures CategoryResults("beach", Dataset(Some([b1, b2, b3]), None, None)) == [b1, b2]
  {
    KeywordMatches(BeachKeywords, 0);
    var data := Dataset(Some([b1, b2, b3]), None, None);
    assert BeachPart("beach", data) == [b1, b2];
    assert TemplePart("beach", data) == [];
    assert CountryPart("beach", data) == [];
  }

  /** "country" shows the first city of each of the first two countries. */
  lemma CountryQuery(a: Destination, b: Destination, c: Destination, d: Destination)
    ensures Search("country", TwoCountries(a, b, c, d)) == Cards([a, c])
  {
    CountryQueryCategories(a, b, c, d);
    CountryIsPlain();
    ByCategory("country", TwoCountries(a, b, c, d), [a, c]);
  }

  lemma BeachIsPlain()
    ensures SearchTerm("beach") == "beach" && Normalize("beach") == "beach"
  {
    PlainQuery("beach");
  }

  lemma ZzzIsPlain()
    ensures SearchTerm("zzz") == "zzz" && Normalize("zzz") == "zzz"
  {
    PlainQuery("zzz");
  }

  lemma CountryIsPlain()
    ensures SearchTerm("country") == "country" && Normalize("country") == "country"
  {
    PlainQuery("country");
  }

  /** Japan with the cities a and b, then Australia with c and d. */
  function TwoCountries(a: Destination, b: Destination, c: Destination, d: Destination): Dataset {
    Dataset(None, None, Some([Country("Japan", Some([a, b])), Country("Australia", Some([c, d]))]))
  }

  lemma CountryQueryCategories(a: Destination, b: Destination, c: Destination, d: Destination)
    ensures CategoryResults("country", TwoCountries(a, b, c, d)) == [a, c]
  {
    KeywordMatches(CountryKeywords, 0);
    var japan := Country("Japan", Some([a, b]));
    var australia := Country("Australia", Some([c, d]));
    var data := Dataset(None, None, Some([japan, australia]));
    assert Take([japan, australia], 2) == [japan, australia];
    assert FirstCities([japan, australia]) == [a, c] by {
      assert [japan, australia][1..] == [australia];
      assert FirstCities([australia]) == [c] by {
        assert [australia][1..] == [];
      }
    }
    assert BeachPart("country", data) == [];
    assert TemplePart("country", data) == [];
    assert CountryPart("country", data) == [a, c];
  }

  /** A query no keyword and no name answers to shows the "no results" message. */
  lemma UnmatchedQuery(beach: Destination, temple: Destination)
    requires forall i :: 0 <= i < |beach.name| ==> beach.name[i] != 'z' && beach.name[i] != 'Z'
    requires forall i :: 0 <= i < |temple.name| ==> temple.name[i] != 'z' && temple.name[i] != 'Z'
    ensures Search("zzz", Dataset(Some([beach]), Some([temple]), None)) == Message(NoResultsText("zzz"))
  {
    UnmatchedName(beach);
    UnmatchedName(temple);
    UnmatchedFallback(beach, temple);
    UnmatchedSearch("zzz", beach, temple);
  }

  lemma UnmatchedSearch(raw: string, beach: Destination, temple: Destination)
    requires raw == "zzz"
    requires Fallback(raw, Dataset(Some([beach]), Some([temple]), None), []) == Normal([])
    ensures Search(raw, Dataset(Some([beach]), Some([temple]), None)) == Message(NoResultsText(raw))
  {
    UnmatchedCategories(Dataset(Some([beach]), Some([temple]), None));
    ZzzIsPlain();
    ByNothing(raw, Dataset(Some([beach]), Some([temple]), None));
  }

  lemma UnmatchedFallback(beach: Destination, temple: Destination)
    requires !NameHit("zzz", beach) && !NameHit("zzz", temple)
    ensures Fallback("zzz", Dataset(Some([beach]), Some([temple]), None), []) == Normal([])
  {
    assert NameScan("zzz", [temple], []) == [] by { assert [temple][1..] == []; }
    assert NameScan("zzz", [beach], []) == [] by { assert [beach][1..] == []; }
  }

  lemma UnmatchedCategories(data: Dataset)
    ensures CategoryResults("zzz", data) == []
  {
    BeachKeywordsMissZzz();
    TempleKeywordsMissZzz();
    CountryKeywordsMissZzz();
  }

  lemma BeachKeywordsMissZzz()
    ensures !MatchesCategory("zzz", BeachKeywords)
  {
    NoKeywordMatches(BeachKeywords);
  }

  lemma TempleKeywordsMissZzz()
    ensures !MatchesCategory("zzz", TempleKeywords)
  {
    NoKeywordMatches(TempleKeywords);
  }

  lemma CountryKeywordsMissZzz()
    ensures !MatchesCategory("zzz", CountryKeywords)
  {
    NoKeywordMatches(CountryKeywords);
  }

  /** "zzz" matches no category whose keywords are non-empty and have no z. */
  lemma NoKeywordMatches(keywords: seq<string>)
    requires forall i :: 0 <= i < |keywords| ==> keywords[i] != [] && 'z' !in keywords[i]
    ensures !MatchesCategory("zzz", keywords)
  {
    forall i | 0 <= i < |keywords| ensures !Includes("zzz", keywords[i]) && !Includes(keywords[i], "zzz") {
      WithoutZ(keywords[i]);
    }
    MatchesCategoryIff("zzz", keywords);
  }

  lemma UnmatchedName(d: Destination)
    requires forall i :: 0 <= i < |d.name| ==> d.name[i] != 'z' && d.name[i] != 'Z'
    ensures !NameHit("zzz", d)
  {
    var l := Lower(d.name);
    assert forall i :: 0 <= i < |l| ==> l[i] == LowerChar(d.name[i]) != 'z';
    WithoutZ(l);
  }
}
