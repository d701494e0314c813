/** The dataset the search reads: the parsed `travel_recommendation_api.json`,
    whose three top-level collections (and each country's city list) may be absent. */
module TravelData {

  datatype Option<T> = None | Some(value: T)

  /** How a JavaScript computation ends: with a value, or by throwing (here always a
      `TypeError` from calling a method on a missing field). */
  datatype Completion<T> = Normal(value: T) | Throws

  /** A beach, a temple or a city. */
  datatype Destination = Destination(name: string, description: string, imageUrl: string)

  datatype Country = Country(name: string, cities: Option<seq<Destination>>)

  datatype Dataset = Dataset(
    beaches: Option<seq<Destination>>,
    temples: Option<seq<Destination>>,
    countries: Option<seq<Country>>)

  /** The state before the dataset has loaded (`let travelData = {}`). */
  const EmptyDataset := Dataset(None, None, None)

  /** A present collection, or nothing when the field is absent. */
  function OrEmpty<T>(o: Option<seq<T>>): seq<T> {
    match o
    case None => []
    case Some(s) => s
  }

  function Min(a: int, b: int): int {
    if a <= b then a else b
  }

  /** `s.slice(0, n)`. */
  function Take<T>(s: seq<T>, n: nat): seq<T> {
    s[..Min(n, |s|)]
  }

  /** `country.cities && country.cities.length > 0`. */
  predicate HasCities(c: Country) {
    c.cities.Some? && |c.cities.value| > 0
  }

  function Cities(c: Country): seq<Destination> {
    OrEmpty(c.cities)
  }

  /** `d` is a beach, a temple or a city of some country of `data`. */
  ghost predicate InDataset(data: Dataset, d: Destination) {
    || d in OrEmpty(data.beaches)
    || d in OrEmpty(data.temples)
    || exists c :: c in OrEmpty(data.countries) && d in Cities(c)
  }

  /** Every name in `s` occurs once. */
  ghost predicate DistinctNames(s: seq<Destination>) {
    forall i, j :: 0 <= i < j < |s| ==> s[i].name != s[j].name
  }
}
