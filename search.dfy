/** `searchRecommendations`: read the query, reject a blank one, normalise it, run the
    category path, fall back to the search by name when that selected nothing, and
    display the outcome. The dataset is whatever has been loaded so far. */
module Recommendation {
  import opened Text
  import opened TravelData
  import opened CategorySearch
  import opened FallbackSearch
  import opened Display

  /** The message shown for a blank query. */
  const PromptText := "Por favor, ingresa un t\U{E9}rmino de b\U{FA}squeda."

  /** The query as typed, trimmed and lower-cased; this is what the messages quote. */
  function SearchTerm(raw: string): string {
    Lower(Trim(raw))
  }

  /** The term the matchers use: lower-cased again and stripped of combining marks. */
  function Normalize(searchTerm: string): string {
    StripMarks(Lower(searchTerm))
  }

  /** The category path selects something: a matched category with a non-empty
      collection, or, for countries, one of the first two with a city. */
  ghost predicate CategorySelects(term: string, data: Dataset) {
    || (MatchesCategory(term, BeachKeywords) && OrEmpty(data.beaches) != [])
    || (MatchesCategory(term, TempleKeywords) && OrEmpty(data.temples) != [])
    || (MatchesCategory(term, CountryKeywords) &&
        exists c :: c in Take(OrEmpty(data.countries), 2) && HasCities(c))
  }

  /** The screen after a search for `raw` against `data`. */
  function Search(raw: string, data: Dataset): Screen {
    var searchTerm := SearchTerm(raw);
    if searchTerm == [] then Message(PromptText)
    else
      var term := Normalize(searchTerm);
      var results := CategoryResults(term, data);
      if results != [] then Rendered(results, searchTerm)
      else
        match Fallback(term, data, results)
        case Throws => Unchanged
        case Normal(found) => Rendered(found, searchTerm)
  }

  /** The click handler's search. */
  method SearchRecommendations(raw: string, data: Dataset) returns (screen: Screen)
    ensures screen == Search(raw, data)
  {
    var searchTerm := Lower(Trim(raw));
    if searchTerm == [] {
      return Message(PromptText);
    }
    var normalizedTerm := StripMarks(Lower(searchTerm));
    var results := SearchCategories(normalizedTerm, data);
    if |results| == 0 {
      var outcome := SearchSpecificDestinations(normalizedTerm, data, results);
      match outcome
      case Throws =>
        return Unchanged;
      case Normal(found) =>
        results := found;
    }
    screen := DisplayResults(results, searchTerm);
  }

  // ---------------------------------------------------------------- properties

  lemma SearchTermEmptyIff(raw: string)
    ensures SearchTerm(raw) == [] <==> forall i :: 0 <= i < |raw| ==> IsSpace(raw[i])
  {
    TrimEmptyIff(raw);
    assert |Lower(Trim(raw))| == |Trim(raw)|;
  }

  /** The second lower-casing is redundant: the matchers see the search term with its
      combining marks removed, and nothing else changed. */
  lemma NormalizeSearchTerm(raw: string)
    ensures Normalize(SearchTerm(raw)) == StripMarks(SearchTerm(raw))
  {
    LowerIdempotent(Trim(raw));
  }

  /** The prompt to enter a term is shown exactly for a blank query, whatever the
      dataset holds: a blank query never reaches the matchers. */
  lemma PromptIff(raw: string, data: Dataset)
    ensures Search(raw, data) == Message(PromptText) <==> forall i :: 0 <= i < |raw| ==> IsSpace(raw[i])
  {
    SearchTermEmptyIff(raw);
    NoResultsIsNotPrompt(SearchTerm(raw));
  }

  /** When a matched category has something to give, the fallback is never consulted:
      the screen shows the category results, even when some country lacks a city list. */
  lemma CategoryShortCircuit(raw: string, data: Dataset)
    requires SearchTerm(raw) != []
    requires CategorySelects(Normalize(SearchTerm(raw)), data)
    ensures Search(raw, data) == Rendered(CategoryResults(Normalize(SearchTerm(raw)), data), SearchTerm(raw))
    ensures Search(raw, data).Cards?
  {
    CategoryEmptyIff(Normalize(SearchTerm(raw)), data);
  }

  /** At most four cards are shown, at least one, and each one is an element of the
      dataset. */
  lemma CardsFromDataset(raw: string, data: Dataset)
    requires Search(raw, data).Cards?
    ensures 1 <= |Search(raw, data).shown| <= MaxCards
    ensures forall i :: 0 <= i < |Search(raw, data).shown| ==> InDataset(data, Search(raw, data).shown[i])
  {
    var st := SearchTerm(raw);
    var term := Normalize(st);
    var results := CategoryResults(term, data);
    if results != [] {
      CategoryResultsInDataset(term, data);
      RenderedFrom(data, results, st);
    } else {
      FallbackSound(term, data, results);
      RenderedFrom(data, Fallback(term, data, results).value, st);
    }
  }

  /** The cards of a rendered screen are entries of the results it came from. */
  lemma RenderedFrom(data: Dataset, results: seq<Destination>, searchTerm: string)
    requires forall k :: 0 <= k < |results| ==> InDataset(data, results[k])
    ensures var screen := Rendered(results, searchTerm);
            screen.Cards? ==>
              && 1 <= |screen.shown| <= MaxCards
              && forall i :: 0 <= i < |screen.shown| ==> InDataset(data, screen.shown[i])
  {
    var screen := Rendered(results, searchTerm);
    if screen.Cards? {
      forall i | 0 <= i < |screen.shown| ensures InDataset(data, screen.shown[i]) {
        assert screen.shown[i] == results[i];
      }
    }
  }

  /** The two messages differ, so a non-blank query never shows the prompt. */
  lemma NoResultsIsNotPrompt(searchTerm: string)
    ensures NoResultsText(searchTerm) != PromptText
  {
    assert NoResultsText(searchTerm)[0] == 'N';
    assert PromptText[0] == 'P';
  }

  /** The "no results" message appears exactly when the query is not blank, no
      category selects anything, every country has a city list, and no name in the
      dataset answers to the term. */
  lemma NoResultsIff(raw: string, data: Dataset)
    ensures var st := SearchTerm(raw);
            var term := Normalize(st);
            Search(raw, data) == Message(NoResultsText(st)) <==>
              && st != []
              && !CategorySelects(term, data)
              && (forall c :: c in OrEmpty(data.countries) ==> c.cities.Some?)
              && !AnyNameHit(term, data)
  {
    var st := SearchTerm(raw);
    var term := Normalize(st);
    if st == [] {
      NoResultsIsNotPrompt(st);
    } else {
      CategoryEmptyIff(term, data);
      FallbackThrowsIff(term, data, []);
      if Fallback(term, data, []).Normal? {
        FallbackEmptyIff(term, data);
      }
    }
  }

  /** The search throws, leaving the screen as it was, exactly when the fallback runs
      and meets a country without a city list. */
  lemma UnchangedIff(raw: string, data: Dataset)
    ensures var st := SearchTerm(raw);
            var term := Normalize(st);
            Search(raw, data) == Unchanged <==>
              && st != []
              && !CategorySelects(term, data)
              && exists c :: c in OrEmpty(data.countries) && c.cities.None?
  {
    var st := SearchTerm(raw);
    if st != [] {
      var term := Normalize(st);
      CategoryEmptyIff(term, data);
      FallbackThrowsIff(term, data, []);
    }
  }

  /** Before the dataset has loaded, a search is not an error: a blank query gets the
      prompt and any other query the "no results" message. */
  lemma SearchBeforeLoad(raw: string)
    ensures Search(raw, EmptyDataset) ==
              if SearchTerm(raw) == [] then Message(PromptText) else Message(NoResultsText(SearchTerm(raw)))
  {
    var term := Normalize(SearchTerm(raw));
    assert CategoryResults(term, EmptyDataset) == [];
    assert Fallback(term, EmptyDataset, []) == Normal([]);
  }
}
