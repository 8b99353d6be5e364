/** Which directory-service URL a search string selects.

    An empty search asks for the whole directory; any other search asks the
    name endpoint, with the search string appended verbatim (no URL
    encoding, no trimming). */
module Query {
  import opened Wrappers

  const AllUrl: string := "https://restcountries.com/v3.1/all"
  const NamePrefix: string := "https://restcountries.com/v3.1/name/"

  /** The URL requested for the current search string. */
  function QueryUrl(search: string): (url: string)
    ensures search == "" <==> url == AllUrl
    ensures search != "" ==> NamePrefix <= url && url[|NamePrefix|..] == search
  {
    if search == "" then AllUrl
    else
      var url := NamePrefix + search;
      assert url[|NamePrefix|..] == search;
      assert url != AllUrl by { assert url[31] == NamePrefix[31] != AllUrl[31]; }
      url
  }

  /** Recovers the search string from a URL string; `None` for a URL string
      the view never builds. */
  function SearchOf(url: string): (s: Option<string>)
    ensures s.Some? ==> QueryUrl(s.value) == url
  {
    if url == AllUrl then Some("")
    else if NamePrefix <= url && |url| > |NamePrefix| then
      assert url == NamePrefix + url[|NamePrefix|..];
      Some(url[|NamePrefix|..])
    else None
  }

  /** The search string can always be read back from the URL string it
      selects. */
  lemma QueryRoundTrip(search: string)
    ensures SearchOf(QueryUrl(search)) == Some(search)
  {
  }

  /** Every URL string that reads back as a search string is the URL string
      that search selects. */
  lemma SearchOfSound(url: string, search: string)
    requires SearchOf(url) == Some(search)
    ensures QueryUrl(search) == url
  {
  }

  /** Different search strings give different URL strings. This is about
      the string handed to the request, before any URL parsing. */
  lemma QueryUrlInjective(s1: string, s2: string)
    requires QueryUrl(s1) == QueryUrl(s2)
    ensures s1 == s2
  {
    QueryRoundTrip(s1);
    QueryRoundTrip(s2);
  }
}
