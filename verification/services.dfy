/**
 * The endpoint a binding talks to: its base URL, the URL components that
 * collect query items, and optional default server-side translators.
 */
module Services {
  import opened Wrappers

  /** Foundation's `URLQueryItem`. Translators always supply a value. */
  datatype QueryItem = QueryItem(name: string, value: string)

  /** Builds one filter query item from (property, operation, value). */
  type FilterTranslator = (string, string, string) -> QueryItem

  /** Builds the sort query item from (operation, property). */
  type SortTranslator = (string, string) -> QueryItem

  /** A URL split into its query-free part and its query items (`nil` when there is no query). */
  datatype UrlComponents = UrlComponents(base: string, queryItems: Option<seq<QueryItem>>)

  datatype Service = Service(
    url: string,
    urlComponents: UrlComponents,
    filterServerStrategy: Option<FilterTranslator>,
    sortServerStrategy: Option<SortTranslator>)

  /** `name=value` pairs joined by '&'. */
  function QueryString(items: seq<QueryItem>): string {
    if |items| == 0 then ""
    else if |items| == 1 then items[0].name + "=" + items[0].value
    else items[0].name + "=" + items[0].value + "&" + QueryString(items[1..])
  }

  /** The string form of URL components: the base, then '?' and the query when there is one. */
  function ComponentsString(c: UrlComponents): string {
    match c.queryItems
    case None => c.base
    case Some(items) => c.base + "?" + QueryString(items)
  }

  /** The collection address: the URL with every query item appended so far. */
  function ComposedAddress(s: Service): string {
    ComponentsString(s.urlComponents)
  }

  /** `Service.init`: components derived from the URL, which carries no query of its own. */
  function NewService(url: string, filterServerStrategy: Option<FilterTranslator> := None,
                      sortServerStrategy: Option<SortTranslator> := None): (s: Service)
    ensures s.url == url
    ensures ComposedAddress(s) == url
    ensures s.urlComponents.queryItems.None?
  {
    Service(url, UrlComponents(url, None), filterServerStrategy, sortServerStrategy)
  }

  /** `append(route:)`: the URL extended by one path component. */
  function AppendRoute(s: Service, route: string): (address: string)
    ensures |address| >= |s.url| + |route| && address[..|s.url|] == s.url
    ensures address[|address| - |route|..] == route
  {
    if |s.url| > 0 && s.url[|s.url| - 1] == '/' then s.url + route else s.url + "/" + route
  }

  /** `append(queryStrategy:)`: the new items after the existing ones (none counts as empty). */
  function AppendQuery(s: Service, items: seq<QueryItem>): (r: Service)
    ensures r.url == s.url
    ensures r.urlComponents.base == s.urlComponents.base
    ensures r.filterServerStrategy == s.filterServerStrategy
    ensures r.sortServerStrategy == s.sortServerStrategy
    ensures r.urlComponents.queryItems.Some?
    ensures var before := s.urlComponents.queryItems.GetOr([]);
            var after := r.urlComponents.queryItems.value;
            |after| == |before| + |items| && after[..|before|] == before && after[|before|..] == items
  {
    var before := s.urlComponents.queryItems.GetOr([]);
    s.(urlComponents := s.urlComponents.(queryItems := Some(before + items)))
  }

  /** Two appends compose into one: nothing appended earlier is removed or reordered. */
  lemma AppendQueryTwice(s: Service, a: seq<QueryItem>, b: seq<QueryItem>)
    ensures AppendQuery(AppendQuery(s, a), b) == AppendQuery(s, a + b)
  {
    var before := s.urlComponents.queryItems.GetOr([]);
    assert (before + a) + b == before + (a + b);
  }

  /** Element addresses are built from the URL alone, so appended query items never reach them. */
  lemma AppendRouteIgnoresQuery(s: Service, items: seq<QueryItem>, route: string)
    ensures AppendRoute(AppendQuery(s, items), route) == AppendRoute(s, route)
  {
  }

  /** Different routes lead to different addresses. */
  lemma AppendRouteInjective(s: Service, r1: string, r2: string)
    requires AppendRoute(s, r1) == AppendRoute(s, r2)
    ensures r1 == r2
  {
    var a1, a2 := AppendRoute(s, r1), AppendRoute(s, r2);
    if |s.url| > 0 && s.url[|s.url| - 1] == '/' {
      assert a1[|s.url|..] == r1;
      assert a2[|s.url|..] == r2;
    } else {
      assert a1[|s.url| + 1..] == r1;
      assert a2[|s.url| + 1..] == r2;
    }
  }
}
