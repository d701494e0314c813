/** `displayResults` and `showMessage` as a view model: what the results container
    shows after a search. The card markup itself is not modelled, only which
    destinations get a card and in what order. */
module Display {
  import opened Text
  import opened TravelData

  /** At most this many cards are rendered. */
  const MaxCards := 4

  datatype Screen =
    | Message(text: string)            // a single message paragraph
    | Cards(shown: seq<Destination>)   // one card per destination, in this order
    | Unchanged                        // the search threw, so the container keeps its old content

  /** The "no destinations match" message, naming the search term in quotes. */
  function NoResultsText(searchTerm: string): string {
    "No se encontraron destinos " + "que coincidan con \"" + searchTerm + "\"."
  }

  /** The screen `displayResults(results, searchTerm)` leaves behind. */
  function Rendered(results: seq<Destination>, searchTerm: string): Screen {
    if |results| == 0 then Message(NoResultsText(searchTerm))
    else Cards(results[..Min(MaxCards, |results|)])
  }

  /** Renders the results, skipping every entry from index 4 on. */
  method DisplayResults(results: seq<Destination>, searchTerm: string) returns (screen: Screen)
    ensures screen == Rendered(results, searchTerm)
    ensures screen.Message? <==> results == []
    ensures results == [] ==> screen.text == NoResultsText(searchTerm)
    ensures screen.Cards? ==>
              && |screen.shown| == Min(MaxCards, |results|)
              && forall i :: 0 <= i < |screen.shown| ==> screen.shown[i] == results[i]
  {
    if |results| == 0 {
      return Message(NoResultsText(searchTerm));
    }
    var cards: seq<Destination> := [];
    var index := 0;
    while index < |results|
      invariant 0 <= index <= |results|
      invariant cards == results[..Min(MaxCards, index)]
    {
      if index < MaxCards {
        cards := cards + [results[index]];
      }
      index := index + 1;
    }
    screen := Cards(cards);
  }

  /** A non-empty list of at most four results is shown whole, in order. */
  lemma ShortListShownWhole(results: seq<Destination>, searchTerm: string)
    requires results != [] && |results| <= MaxCards
    ensures Rendered(results, searchTerm) == Cards(results)
  {
    assert results[..Min(MaxCards, |results|)] == results;
  }

  /** The "no results" message quotes the search term. */
  lemma NoResultsQuotesTerm(searchTerm: string)
    ensures Includes(NoResultsText(searchTerm), searchTerm)
  {
    var prefix := "No se encontraron destinos " + "que coincidan con \"";
    assert NoResultsText(searchTerm) == prefix + searchTerm + "\".";
    IncludesInfix(prefix, searchTerm, "\".");
  }
}
