/** The choice of feed in `_get_carburants_xml`: the command's data type, compared
    case-insensitively, picks the daily or the yearly archive. The download, the
    archive and the XML parsing that follow are outside this model. */
module Fetch {
  import opened Wrappers
  import opened Text

  const UrlCarburantsWeek: string := "http://donnees.roulez-eco.fr/opendata/jour"
  const UrlCarburantsYear: string := "http://donnees.roulez-eco.fr/opendata/annee"

  /** `url` left unassigned: Python raises `UnboundLocalError` when it is read. */
  datatype FetchError = UnboundUrl

  function SelectUrl(dataType: string): (r: Result<string, FetchError>)
    ensures r == Success(UrlCarburantsWeek) <==> Lower(dataType) == "week"
    ensures r == Success(UrlCarburantsYear) <==> Lower(dataType) == "year"
    ensures r.Failure? <==> Lower(dataType) != "week" && Lower(dataType) != "year"
  {
    if Lower(dataType) == "week" then Success(UrlCarburantsWeek)
    else if Lower(dataType) == "year" then Success(UrlCarburantsYear)
    else Failure(UnboundUrl)
  }

  /** The default data type and its spellings in capitals select the daily feed;
      so does a Kelvin sign in place of the 'k', which `str.lower()` folds to 'k'. */
  lemma WeekSpellings()
    ensures SelectUrl("week") == Success(UrlCarburantsWeek)
    ensures SelectUrl("WEEK") == Success(UrlCarburantsWeek)
    ensures SelectUrl("Wee\U{212A}") == Success(UrlCarburantsWeek)
    ensures SelectUrl("Year") == Success(UrlCarburantsYear)
    ensures SelectUrl("day") == Failure(UnboundUrl)
  {
    assert Lower("WEEK") == "week";
    assert Lower("Wee\U{212A}") == "week";
    assert Lower("Year") == "year";
    assert Lower("day") == "day";
  }
}
