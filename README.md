# Travel recommendation search, modelled in Dafny

This project models the search behind a browser widget for travel
recommendations. A dataset holds beaches, temples, and countries with their
cities. Each of these may be missing. A query goes through these steps:

- The query is trimmed and lower-cased; a blank query gets a prompt.
- It is then normalised: lower-cased again and stripped of combining marks.
- The **category path** runs next. A query that looks like one of the keywords
  for beaches, temples or countries selects up to two beaches, up to two temples,
  and the first city of each of the first two countries, in that order.
- Only when the category path selects nothing does the **fallback** run. It is a
  search by name over countries, their cities, temples and then beaches. The
  city, temple and beach tests skip a name that is already collected.
- The outcome is **displayed**. An empty result gives a "no results" message
  that quotes the term. Otherwise at most four cards are shown, in result order.

Modules, one per component:

- `Text` (`text.dfy`): the JavaScript string primitives used. These are `includes`,
  `toLowerCase` on ASCII letters, `trim` with the ECMAScript white-space set, and
  removal of the combining marks U+0300..U+036F.
- `TravelData` (`travel_data.dfy`): destinations, countries and the dataset.
  Absent fields are `Option`s. `Completion` records whether a computation
  returned normally or threw.
- `CategorySearch` (`category.dfy`): the keyword matcher, the category policy as
  the function `CategoryResults`, and the method `SearchCategories` that builds it
  by pushes.
- `FallbackSearch` (`fallback.dfy`): the name search as the function `Fallback`,
  and the method `SearchSpecificDestinations` with the source's nested loops.
  Each loop is proved against `Fallback` with a "remaining work" invariant.
- `Display` (`display.dfy`): `displayResults` as a view model (`Screen`).
- `Recommendation` (`search.dfy`): the whole search, as the function `Search` and
  the method `SearchRecommendations`, with end-to-end properties.
- `Scenarios` (`scenarios.dfy`): worked searches on small datasets.

The results array that the source fills by `push` is local to one search and is
never shared. Each method therefore keeps it as a local `seq` that it reassigns,
and returns the final contents.

## Model

| member | source | states |
|---|---|---|
| `Text.IncludesEmpty` | travelRecommendation/travel_recommendation.js:83 | `includes` finds the empty string in every string |
| `Text.IncludesSelf` | travelRecommendation/travel_recommendation.js:83 | every string includes itself |
| `Text.IncludesInfix` | travelRecommendation/travel_recommendation.js:133 | a string includes any string placed inside it |
| `Text.LowerIdempotent` | travelRecommendation/travel_recommendation.js:37-38 | lower-casing the already lower-cased term again changes nothing |
| `Text.TrimStart` | travelRecommendation/travel_recommendation.js:27 | the result is a suffix of the input that does not begin with white space; everything dropped is white space |
| `Text.TrimEnd` | travelRecommendation/travel_recommendation.js:27 | the result is a prefix of the input that does not end with white space; everything dropped is white space |
| `Text.TrimEmptyIff` | travelRecommendation/travel_recommendation.js:27-29 | `trim()` gives the empty string exactly when every character is white space |
| `Text.StripMarks` | travelRecommendation/travel_recommendation.js:40 | no combining mark survives; every kept character comes from the input; the result is empty exactly when the input is all marks; an input without marks is unchanged; a single character is dropped exactly when it is a mark |
| `Text.StripMarksAppend` | travelRecommendation/travel_recommendation.js:40 | stripping distributes over concatenation, so together with the single-character case every non-mark is kept, in input order |
| `CategorySearch.MatchesCategoryIff` | travelRecommendation/travel_recommendation.js:81-85 | the matcher holds exactly when some keyword is contained in the term or contains the term; it fails for an empty keyword list |
| `CategorySearch.KeywordMatches` | travelRecommendation/travel_recommendation.js:81-85 | a term equal to one of the keywords matches |
| `CategorySearch.EmptyTermMatches` | travelRecommendation/travel_recommendation.js:81-85 | an empty term matches every non-empty keyword list, because every keyword contains it |
| `CategorySearch.SearchCategories` | travelRecommendation/travel_recommendation.js:42-69 | the pushes of the three category blocks yield `CategoryResults`, at most 6 entries |
| `CategorySearch.PushFirstCities` | travelRecommendation/travel_recommendation.js:63-67 | the loop over the countries appends exactly `FirstCities` of them to the results |
| `CategorySearch.FirstCitiesFrom` | travelRecommendation/travel_recommendation.js:63-67 | no more cities are given than there are countries; the first city of every country with cities is given; every city given is the first city of a country with cities; nothing is given exactly when no country has cities |
| `CategorySearch.FirstCitiesAppend` | travelRecommendation/travel_recommendation.js:63-67 | the cities given for two runs of countries are those of the first run followed by those of the second |
| `CategorySearch.FirstCitiesOfTwo` | travelRecommendation/travel_recommendation.js:63-67 | for the first two countries the loop gives the first city of the first country (if it has cities), then the first city of the second (if it has cities), and nothing else |
| `CategorySearch.CategoryResultsBound` | travelRecommendation/travel_recommendation.js:45-69 | the category path selects at most 6 entries |
| `CategorySearch.CategoryResultsLayout` | travelRecommendation/travel_recommendation.js:45-69 | the result is exactly: the first min(2, n) beaches when a beach keyword matches, then the first min(2, n) temples when a temple keyword matches, then, when a country keyword matches, the first city of the first country and then of the second, each only if that country has cities |
| `CategorySearch.CategoryResultsInDataset` | travelRecommendation/travel_recommendation.js:45-69 | every entry selected is a beach, temple or city of the dataset |
| `CategorySearch.CategoryEmptyIff` | travelRecommendation/travel_recommendation.js:45-72 | the category path is empty exactly when no matched category has anything to give: no beaches, no temples, or none of the first two countries with a city |
| `FallbackSearch.SearchSpecificDestinations` | travelRecommendation/travel_recommendation.js:88-128 | the nested scans compute `Fallback`, including the throw on a country without a city list |
| `FallbackSearch.ScanCountries` | travelRecommendation/travel_recommendation.js:91-106 | the loop over the countries computes `CountriesScan`: it throws at the first country without a city list, and otherwise appends each country's step |
| `FallbackSearch.ScanByName` | travelRecommendation/travel_recommendation.js:100-126 | one city, temple or beach loop computes `NameScan`: it appends, in order, each entry whose lower-cased name contains the term and whose name is not yet collected |
| `FallbackSearch.NameScanAppends` | travelRecommendation/travel_recommendation.js:100-126 | a city, temple or beach scan only appends; each added entry is from the scanned collection, its lower-cased name contains the term, and no earlier entry has its name |
| `FallbackSearch.NameScanInOrder` | travelRecommendation/travel_recommendation.js:100-126 | the entries a scan adds are a subsequence of the scanned collection, in collection order |
| `FallbackSearch.NameScanComplete` | travelRecommendation/travel_recommendation.js:100-126 | after a scan, every scanned entry whose name contains the term has its name among the results |
| `FallbackSearch.NameScanKeepsDistinct` | travelRecommendation/travel_recommendation.js:100-126 | a scan onto a list of distinct names keeps the names distinct |
| `FallbackSearch.CountryStepAppends` | travelRecommendation/travel_recommendation.js:91-105 | for one country, the first two cities come first when its name matches, appended without a name check; its own city-name matches follow, each with a fresh name |
| `FallbackSearch.CountriesScanThrowsIff` | travelRecommendation/travel_recommendation.js:91-106 | the country scan throws exactly when some country has no city list |
| `FallbackSearch.CountriesScanSound` | travelRecommendation/travel_recommendation.js:91-106 | the country scan appends only cities of the countries; each is among the first two cities of a country whose name matches, or matches by its own name and has a fresh name |
| `FallbackSearch.CountriesScanComplete` | travelRecommendation/travel_recommendation.js:91-106 | the first two cities of every matching country are collected, and every matching city has its name collected |
| `FallbackSearch.CountriesScanKeepsCountryCities` | travelRecommendation/travel_recommendation.js:93-97 | the first two cities of every country whose name matches are among the results |
| `FallbackSearch.CountriesScanKeepsNamedCities` | travelRecommendation/travel_recommendation.js:100-105 | every city whose name matches has its name among the results |
| `FallbackSearch.CountriesScanKeepsDistinct` | travelRecommendation/travel_recommendation.js:91-106 | when no country with cities matches by name, a country scan onto distinct names keeps the names distinct |
| `FallbackSearch.FallbackThrowsIff` | travelRecommendation/travel_recommendation.js:90-107 | the fallback throws exactly when the dataset has a country without a city list |
| `FallbackSearch.FallbackLayout` | travelRecommendation/travel_recommendation.js:90-127 | the input list is kept as a prefix; country-derived entries come first, then temple matches, then beach matches; every temple and beach appended has a fresh name |
| `FallbackSearch.FallbackSound` | travelRecommendation/travel_recommendation.js:91-126 | every appended entry is an element of the dataset, and is among the first two cities of a country whose name contains the term, or has a name containing the term |
| `FallbackSearch.FallbackComplete` | travelRecommendation/travel_recommendation.js:90-127 | the first two cities of every matching country are collected, and every matching city, temple and beach has its name among the results |
| `FallbackSearch.FallbackEmptyIff` | travelRecommendation/travel_recommendation.js:90-127 | started from nothing and not throwing, the fallback finds nothing exactly when no country with cities, no city, no temple and no beach has a lower-cased name containing the term |
| `FallbackSearch.FallbackMayRepeatName` | travelRecommendation/travel_recommendation.js:93-96 | two countries named with "japan", each with a city "Tokyo", give a result with the name "Tokyo" twice |
| `FallbackSearch.FallbackDistinctNames` | travelRecommendation/travel_recommendation.js:90-127 | when no country with cities matches by name, the fallback's results have distinct names |
| `Display.DisplayResults` | travelRecommendation/travel_recommendation.js:131-139 | an empty list gives the "no results" message for the term; otherwise exactly the first min(4, n) results are rendered, in order |
| `Display.NoResultsQuotesTerm` | travelRecommendation/travel_recommendation.js:133 | the "no results" message contains the search term |
| `Display.ShortListShownWhole` | travelRecommendation/travel_recommendation.js:138-139 | a non-empty list of at most four results is shown whole, in order |
| `Recommendation.SearchRecommendations` | travelRecommendation/travel_recommendation.js:26-78 | the handler's steps compute `Search`: prompt, category path, fallback only on an empty category result, display |
| `Recommendation.SearchTermEmptyIff` | travelRecommendation/travel_recommendation.js:27-29 | the trimmed, lower-cased term is empty exactly when the query is all white space |
| `Recommendation.NormalizeSearchTerm` | travelRecommendation/travel_recommendation.js:37-40 | lower-casing the already lower-cased term a second time has no effect, so normalising only strips the combining marks |
| `Recommendation.PromptIff` | travelRecommendation/travel_recommendation.js:27-32 | the prompt to enter a term appears exactly for an all-white-space query, whatever the dataset; no matching takes place |
| `Recommendation.CategoryShortCircuit` | travelRecommendation/travel_recommendation.js:45-74 | when a matched category has something to give, the screen shows the category results as cards and the fallback is not consulted |
| `Recommendation.CardsFromDataset` | travelRecommendation/travel_recommendation.js:131-139 | a screen of cards shows between 1 and 4 cards, each an element of the dataset |
| `Recommendation.NoResultsIff` | travelRecommendation/travel_recommendation.js:72-74 | the "no results" message appears exactly when the query is not blank, no category selects anything, every country has a city list, and no name answers to the term |
| `Recommendation.UnchangedIff` | travelRecommendation/travel_recommendation.js:100 | the search throws, leaving the screen unchanged, exactly when the fallback runs and some country has no city list |
| `Recommendation.SearchBeforeLoad` | travelRecommendation/travel_recommendation.js:8 | against the empty dataset present before loading, a search gives the prompt or the "no results" message, never an error |
| `Scenarios.BeachQuery` | travelRecommendation/travel_recommendation.js:45-50 | with three beaches, "beach" shows the first two as cards |
| `Scenarios.CountryQuery` | travelRecommendation/travel_recommendation.js:59-69 | with Japan [a, b] and Australia [c, d], "country" shows [a, c] |
| `Scenarios.UnmatchedQuery` | travelRecommendation/travel_recommendation.js:132-135 | "zzz" against names without a z shows the "no results" message |

## Behaviour worth noting

- Names can repeat. A matching country's first two cities are appended without
  a name check (line 95). So a name repeats when two matching countries list a
  city of the same name, or when such a city was collected earlier by its own
  name. `FallbackMayRepeatName` exhibits this. The checked scans never add a
  repeat (`NameScanAppends`, `NameScanKeepsDistinct`). When no country with
  cities matches by name, the whole result has distinct names
  (`FallbackDistinctNames`).
- A country without a city list makes the fallback throw. The category path
  and the country-name test both check `country.cities` (lines 64 and 94). The
  city scan then iterates over it unconditionally (line 100). The exception
  leaves the click handler, and the results container keeps its old content.
  The model shows this as `Screen.Unchanged` (`UnchangedIff`). It happens only
  when the fallback actually runs (`CategoryShortCircuit`).
- The fallback interleaves its work per country. A country's name-matched cities
  are followed by that country's own city-name matches, and only then does the
  next country come (`CountryStepAppends`). So it is not all country matches
  first and all city matches after.
- A query made only of combining marks is not blank, yet it normalises to the
  empty string. Every keyword contains that string, so all three categories
  match (`EmptyTermMatches`).
- The temple keywords list "temple" twice and do not list "temples". "temples"
  still matches, because it contains "temple".

## Left out

- `loadTravelData`, `fetch` and JSON parsing (lines 11-23) are asynchronous
  network I/O. The dataset is a parameter of every operation. `EmptyDataset` is
  the state before loading. The load-failure message is not modelled.
- DOM wiring, the event listeners and the Enter key (lines 2-6, 179-191) are UI
  plumbing. So are `clearResults` (lines 168-172) and the markup of `showMessage`
  (lines 159-165). A message screen is `Screen.Message` with its text.
- `visitDestination` and `alert` (lines 175-177) are a browser side effect.
- The HTML card markup (lines 141-155) is presentation. `Screen.Cards` records
  only which destinations get a card and in what order.
- `Lower`: only the ASCII letters A-Z are mapped. Full Unicode case mapping is
  library behaviour and is not modelled.
- `Normalize`: the NFD decomposition is taken as the identity. Only the combining
  marks U+0300..U+036F already present in the text are removed. So a precomposed
  accented letter such as "í" is kept, where the source would reduce it to "i".
- Strings are sequences of Unicode scalar values, not UTF-16 code units.
- The presence checks are modelled as absence of a field only. Values such as
  `null`, non-array values and missing `name` fields are not modelled. Nor are
  the exceptions those would raise.
- `console.log` and `console.error` calls are diagnostics only.
