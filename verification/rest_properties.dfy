/**
 * What one write, one construction and one response do to the binding:
 * which requests are issued for which changes, what the local array becomes,
 * and how often the server query grows.
 */
module RestProperties {
  import opened Wrappers
  import opened Elements
  import opened Services
  import opened Filters
  import opened Sorters
  import opened KeyPathSort
  import opened Rest
  import Decimal

  // ---------------------------------------------------------------------------
  // Dispatch of single changes

  /** Distinct ids never share an element address, so a PUT or DELETE reaches only the resource of its own id. */
  lemma ElementAddressInjective(svc: Service, a: int, b: int)
    requires ElementAddress(svc, a) == ElementAddress(svc, b)
    ensures a == b
  {
    AppendRouteInjective(svc, Decimal.IntToString(a), Decimal.IntToString(b));
    Decimal.IntToStringInjective(a, b);
  }

  /** An unassociated removal: DELETE to `url/id`, and every local element with that id goes. */
  lemma RemovalDeletes(svc: Service, local: seq<Element>, c: Change)
    requires c.Remove? && c.associatedWith.None? && c.element.id.Some?
    ensures ArrayRequest(svc, local, c) == Some(Request(DELETE, ElementAddress(svc, c.element.id.value), None, DeleteSlot))
    ensures forall e :: e in ArrayLocal(local, c) <==> e in local && e.id != c.element.id
  {
    RemoveAllWithIdMeaning(local, c.element.id);
  }

  /**
   * An unassociated insertion whose id is present locally: PUT, and the local
   * elements with that id are replaced by the new element, appended last.
   */
  lemma InsertionOfKnownIdPuts(svc: Service, local: seq<Element>, c: Change)
    requires c.Insert? && c.associatedWith.None?
    requires exists x :: x in local && x.id == c.element.id
    ensures ArrayRequest(svc, local, c) == Some(PutRequest(svc, c.element))
    ensures ArrayLocal(local, c) == RemoveAllWithId(local, c.element.id) + [c.element]
  {
    var x :| x in local && x.id == c.element.id;
    assert FirstWithId(local, c.element.id).Some?;
  }

  /** An unassociated insertion whose id is not present locally: POST to the base URL, and nothing changes locally yet. */
  lemma InsertionOfNewIdPosts(svc: Service, local: seq<Element>, c: Change)
    requires c.Insert? && c.associatedWith.None?
    requires forall x :: x in local ==> x.id != c.element.id
    ensures ArrayRequest(svc, local, c) == Some(Request(POST, svc.url, Some(c.element), PostSlot))
    ensures ArrayLocal(local, c) == local
  {
    if FirstWithId(local, c.element.id).Some? {
      assert false;
    }
  }

  /** A change that is half of a move dispatches nothing and changes nothing. */
  lemma MoveDispatchesNothing(svc: Service, local: seq<Element>, c: Change)
    requires c.associatedWith.Some?
    ensures ArrayRequest(svc, local, c).None? && ArrayLocal(local, c) == local
  {
  }

  // ---------------------------------------------------------------------------
  // The edit pass

  /** No removal shares the insertion's id exactly when the insertion issues no PUT. */
  lemma {:induction false} MatchingRemovalsZero(e: Element, removals: seq<Change>)
    ensures MatchingRemovals(e, removals) == 0 <==>
      forall i :: 0 <= i < |removals| ==> !(removals[i].Remove? && removals[i].element.id == e.id)
    decreases |removals|
  {
    if |removals| > 0 {
      MatchingRemovalsZero(e, removals[1..]);
      assert forall i :: 1 <= i < |removals| ==> removals[1..][i - 1] == removals[i];
    }
  }

  /** The PUTs (or their POST fallbacks) of the unassociated insertions' elements. */
  function PutsOf(svc: Service, insertions: seq<Change>): set<Request> {
    set c | c in insertions && c.Insert? && c.associatedWith.None? :: PutRequest(svc, c.element)
  }

  /** Every request of the edit pass is a PUT (or its POST fallback) of an unassociated insertion's element. */
  lemma {:induction false} EditRequestsArePuts(svc: Service, insertions: seq<Change>, removals: seq<Change>)
    ensures forall r :: r in EditRequests(svc, insertions, removals) ==> r in PutsOf(svc, insertions)
    decreases |insertions|
  {
    if |insertions| > 0 {
      EditRequestsArePuts(svc, insertions[1..], removals);
      var a := EditOneRequests(svc, insertions[0], removals);
      var b := EditRequests(svc, insertions[1..], removals);
      assert EditRequests(svc, insertions, removals) == a + b;
      assert PutsOf(svc, insertions[1..]) <= PutsOf(svc, insertions) by {
        forall c | c in insertions[1..] ensures c in insertions { }
      }
      forall r | r in a ensures r in PutsOf(svc, insertions) {
        assert insertions[0] in insertions;
      }
    }
  }

  /** The edit pass is silent exactly when no unassociated insertion shares its id with a removal. */
  lemma {:induction false} EditRequestsEmpty(svc: Service, insertions: seq<Change>, removals: seq<Change>)
    ensures EditRequests(svc, insertions, removals) == [] <==>
      forall i, j :: 0 <= i < |insertions| && 0 <= j < |removals| && insertions[i].Insert? && insertions[i].associatedWith.None?
        ==> !(removals[j].Remove? && removals[j].element.id == insertions[i].element.id)
    decreases |insertions|
  {
    if |insertions| > 0 {
      EditRequestsEmpty(svc, insertions[1..], removals);
      MatchingRemovalsZero(insertions[0].element, removals);
      assert EditRequests(svc, insertions, removals)
        == EditOneRequests(svc, insertions[0], removals) + EditRequests(svc, insertions[1..], removals);
      assert forall i :: 1 <= i < |insertions| ==> insertions[1..][i - 1] == insertions[i];
    }
  }

  // ---------------------------------------------------------------------------
  // Local effect of an edit

  lemma {:induction false} RemoveAllWithIdConcat(a: seq<Element>, b: seq<Element>, id: Option<int>)
    ensures RemoveAllWithId(a + b, id) == RemoveAllWithId(a, id) + RemoveAllWithId(b, id)
    decreases |a|
  {
    if |a| > 0 {
      RemoveAllWithIdConcat(a[1..], b, id);
      var ab := a + b;
      var head := if a[0].id == id then [] else [a[0]];
      assert ab[0] == a[0] && ab[1..] == a[1..] + b;
      assert RemoveAllWithId(a, id) == head + RemoveAllWithId(a[1..], id);
      assert RemoveAllWithId(ab, id) == head + (RemoveAllWithId(a[1..], id) + RemoveAllWithId(b, id));
    } else {
      assert a + b == b;
    }
  }

  /** Removing an id twice is removing it once. */
  lemma {:induction false} RemoveAllWithIdIdempotent(xs: seq<Element>, id: Option<int>)
    ensures RemoveAllWithId(RemoveAllWithId(xs, id), id) == RemoveAllWithId(xs, id)
    decreases |xs|
  {
    if |xs| > 0 {
      RemoveAllWithIdIdempotent(xs[1..], id);
      var head := if xs[0].id == id then [] else [xs[0]];
      RemoveAllWithIdConcat(head, RemoveAllWithId(xs[1..], id), id);
    }
  }

  /**
   * An edit: however many removals share the new element's id, the local
   * array ends up with every element of that id gone and the new element
   * appended once; with no such removal nothing changes.
   */
  lemma {:induction false} EditAgainstLocal(local: seq<Element>, e: Element, removals: seq<Change>)
    ensures EditAgainst(local, e, removals) ==
      if MatchingRemovals(e, removals) == 0 then local else RemoveAllWithId(local, e.id) + [e]
    decreases |removals|
  {
    if |removals| > 0 {
      var c := removals[0];
      if c.Remove? && c.element.id == e.id {
        var local' := PutLocal(local, e, c.element);
        EditAgainstLocal(local', e, removals[1..]);
        if MatchingRemovals(e, removals[1..]) > 0 {
          RemoveAllWithIdConcat(RemoveAllWithId(local, e.id), [e], e.id);
          RemoveAllWithIdIdempotent(local, e.id);
          assert RemoveAllWithId([e], e.id) == [];
        }
      } else {
        EditAgainstLocal(local, e, removals[1..]);
      }
    }
  }

  // ---------------------------------------------------------------------------
  // The filter and sort passes

  /** `filter()` leaves exactly the elements satisfying every operation, and issues a GET only for a server filter. */
  lemma FilterPassEffect(s: State)
    ensures FilterPass(s).local == KeepAll(s.local, FilterOperations(s.filterStrategy))
    ensures FilterPass(s).log == s.log + (if s.filterStrategy.ServerFilter? then [GetRequest(FilterPass(s).service)] else [])
    ensures FilterPass(s).sortStrategy == s.sortStrategy && FilterPass(s).sortApplied == s.sortApplied
    ensures FilterPass(s).filterStrategy == s.filterStrategy && FilterPass(s).caching == s.caching
  {
    match s.filterStrategy
    case NoFilter => KeepAllEmpty(s.local);
    case ServerFilter(ops, _) => ClientFilterIsConjunction(s.local, ops);
    case ClientFilter(ops) => ClientFilterIsConjunction(s.local, ops);
  }

  /**
   * The query grows only on the first pass of a server filter: by one item
   * per operation, after the items already there. Any other pass keeps it.
   */
  lemma FilterPassAppends(s: State)
    ensures var before := s.service.urlComponents.queryItems;
            var after := FilterPass(s).service.urlComponents.queryItems;
            if s.filterStrategy.ServerFilter? && !s.filterApplied then
              && after.Some?
              && |after.value| == |before.GetOr([])| + |s.filterStrategy.operations|
              && after.value[..|before.GetOr([])|] == before.GetOr([])
            else after == before
  {
  }

  /**
   * A translator the filter strategy carries decides the query alone: the
   * items `filter()` appends are the same whatever translator the service holds.
   */
  lemma FilterOwnTranslatorFirst(s: State, other: Option<FilterTranslator>)
    requires s.filterStrategy.ServerFilter? && s.filterStrategy.translator.Some?
    ensures FilterPass(s).service.urlComponents
         == FilterPass(s.(service := s.service.(filterServerStrategy := other))).service.urlComponents
  {
  }

  /** Without a translator of its own, a server filter uses the service's as if the strategy carried it. */
  lemma FilterServiceTranslatorNext(s: State)
    requires s.filterStrategy.ServerFilter? && s.filterStrategy.translator.None?
    requires s.service.filterServerStrategy.Some?
    ensures FilterPass(s).service
         == FilterPass(s.(filterStrategy := ServerFilter(s.filterStrategy.operations, s.service.filterServerStrategy))).service
  {
  }

  /** With no translator on the strategy or the service, a server filter uses the library default. */
  lemma FilterDefaultTranslatorLast(s: State)
    requires s.filterStrategy.ServerFilter? && s.filterStrategy.translator.None?
    requires s.service.filterServerStrategy.None?
    ensures FilterPass(s).service
         == FilterPass(s.(filterStrategy := ServerFilter(s.filterStrategy.operations, Some(DefaultFilterServerStrategy)))).service
  {
  }

  /** A second `filter()` never touches the query again. */
  lemma FilterPassOnce(s: State)
    ensures FilterPass(FilterPass(s)).service == FilterPass(s).service
  {
  }


  /** `sort()` orders the array by the key (a permutation of it), and issues a GET only for a server sort. */
  lemma SortPassEffect(s: State)
    ensures multiset(SortPass(s).local) == multiset(s.local)
    ensures s.sortStrategy.NoSort? ==> SortPass(s).local == s.local
    ensures !s.sortStrategy.NoSort? ==>
      var sorter := s.sortStrategy.sorter;
      Ordered(SortPass(s).local, sorter.path.get, ComparatorFor(sorter.direction))
    ensures SortPass(s).log == s.log + (if s.sortStrategy.ServerSort? then [GetRequest(SortPass(s).service)] else [])
    ensures SortPass(s).filterStrategy == s.filterStrategy && SortPass(s).filterApplied == s.filterApplied
    ensures SortPass(s).sortStrategy == s.sortStrategy && SortPass(s).caching == s.caching
  {
    match s.sortStrategy
    case ServerSort(sorter, _) => ClientSortMeaning(s.local, sorter);
    case ClientSort(sorter) => ClientSortMeaning(s.local, sorter);
    case NoSort =>
  }

  /** The query grows only on the first pass of a server sort, by one item after those already there. */
  lemma SortPassAppends(s: State)
    ensures var before := s.service.urlComponents.queryItems;
            var after := SortPass(s).service.urlComponents.queryItems;
            if s.sortStrategy.ServerSort? && !s.sortApplied then
              && after.Some?
              && |after.value| == |before.GetOr([])| + 1
              && after.value[..|before.GetOr([])|] == before.GetOr([])
            else after == before
  {
  }

  /** A translator the sort strategy carries decides the `sort_by` item whatever translator the service holds. */
  lemma SortOwnTranslatorFirst(s: State, other: Option<SortTranslator>)
    requires s.sortStrategy.ServerSort? && s.sortStrategy.translator.Some?
    ensures SortPass(s).service.urlComponents
         == SortPass(s.(service := s.service.(sortServerStrategy := other))).service.urlComponents
  {
  }

  /** Without a translator of its own, a server sort uses the service's as if the strategy carried it. */
  lemma SortServiceTranslatorNext(s: State)
    requires s.sortStrategy.ServerSort? && s.sortStrategy.translator.None?
    requires s.service.sortServerStrategy.Some?
    ensures SortPass(s).service
         == SortPass(s.(sortStrategy := ServerSort(s.sortStrategy.sorter, s.service.sortServerStrategy))).service
  {
  }

  /** With no translator on the strategy or the service, a server sort uses the library default. */
  lemma SortDefaultTranslatorLast(s: State)
    requires s.sortStrategy.ServerSort? && s.sortStrategy.translator.None?
    requires s.service.sortServerStrategy.None?
    ensures SortPass(s).service
         == SortPass(s.(sortStrategy := ServerSort(s.sortStrategy.sorter, Some(DefaultSortServerStrategy)))).service
  {
  }

  /** A second `sort()` never touches the query again. */
  lemma SortPassOnce(s: State)
    ensures SortPass(SortPass(s)).service == SortPass(s).service
  {
  }

  // ---------------------------------------------------------------------------
  // A write

  /** Every request is a GET. */
  predicate OnlyGets(rs: seq<Request>) {
    forall k :: 0 <= k < |rs| ==> rs[k].verb == GET
  }

  /** The GETs `Refresh` issues: the server filter's, then the server sort's. */
  function RefreshGets(s: State): seq<Request> {
    (if s.filterStrategy.ServerFilter? then [GetRequest(FilterService(s))] else [])
    + (if s.sortStrategy.ServerSort? then [GetRequest(SortService(FilterPass(s)))] else [])
  }

  /** `Refresh` issues at most two requests, all GETs. */
  lemma RefreshRequests(s: State)
    ensures Refresh(s).log == s.log + RefreshGets(s)
    ensures |RefreshGets(s)| <= 2 && OnlyGets(RefreshGets(s))
  {
  }

  /** Without strategies `Refresh` changes neither the array nor the log; it only saves the array when caching. */
  lemma RefreshWithoutStrategies(s: State)
    requires s.filterStrategy.NoFilter? && s.sortStrategy.NoSort?
    ensures Refresh(s).local == s.local && Refresh(s).log == s.log && Refresh(s).service == s.service
    ensures Refresh(s).saved == if s.caching then Some(s.local) else s.saved
  {
  }

  /** `Refresh` leaves the elements passing the filter, in key order, and saves them when caching. */
  lemma RefreshLocal(s: State)
    ensures multiset(Refresh(s).local) == multiset(KeepAll(s.local, FilterOperations(s.filterStrategy)))
    ensures forall e :: e in Refresh(s).local ==> SatisfiesAll(e, FilterOperations(s.filterStrategy))
    ensures !s.sortStrategy.NoSort? ==>
      var sorter := s.sortStrategy.sorter;
      Ordered(Refresh(s).local, sorter.path.get, ComparatorFor(sorter.direction))
    ensures s.caching ==> Refresh(s).saved == Some(Refresh(s).local)
  {
    FilterPassEffect(s);
    SortPassEffect(FilterPass(s));
    var ops := FilterOperations(s.filterStrategy);
    KeepAllMeaning(s.local, ops);
    forall e | e in Refresh(s).local ensures SatisfiesAll(e, ops) {
      assert multiset(Refresh(s).local)[e] > 0;
    }
  }

  /** On a settled binding `Refresh` keeps the server query. */
  lemma RefreshKeepsQuery(s: State)
    requires Settled(s)
    ensures Refresh(s).service == s.service && Settled(Refresh(s))
  {
    FilterPassEffect(s);
  }

  /**
   * The requests of one write, in order: the edit pass's PUTs read off `d1`,
   * the array pass's requests for `d2`, one per unassociated change, then the
   * GETs of the server strategies.
   */
  lemma WriteRequests(s: State, newValue: seq<Element>, d1: Difference, d2: Difference)
    requires Valid(s.local, newValue, d1)
    requires Valid(ElementEdit(s, d1).local, newValue, d2)
    requires RemovalsHaveIds(Changes(d2))
    ensures var mid := EditPassLocal(s.local, d1.insertions, d1.removals);
            Write(s, newValue, d1, d2).log
            == s.log + EditRequests(s.service, d1.insertions, d1.removals)
               + ArrayRequests(s.service, mid, Changes(d2)) + RefreshGets(Reconcile(s, d1, d2))
  {
    RefreshRequests(Reconcile(s, d1, d2));
  }

  /** Without strategies a write is the two network passes and nothing more. */
  lemma WriteWithoutStrategies(s: State, newValue: seq<Element>, d1: Difference, d2: Difference)
    requires Valid(s.local, newValue, d1)
    requires Valid(ElementEdit(s, d1).local, newValue, d2)
    requires RemovalsHaveIds(Changes(d2))
    requires s.filterStrategy.NoFilter? && s.sortStrategy.NoSort?
    ensures var mid := EditPassLocal(s.local, d1.insertions, d1.removals);
            && Write(s, newValue, d1, d2).log
               == s.log + EditRequests(s.service, d1.insertions, d1.removals) + ArrayRequests(s.service, mid, Changes(d2))
            && Write(s, newValue, d1, d2).local == ArrayPassLocal(mid, Changes(d2))
  {
    RefreshWithoutStrategies(Reconcile(s, d1, d2));
  }

  /** Every change of a difference that is half of a move. */
  predicate PureReorder(d: Difference) {
    forall c :: c in Changes(d) ==> c.associatedWith.Some?
  }

  lemma {:induction false} UnassociatedOfReorder(cs: seq<Change>)
    requires forall c :: c in cs ==> c.associatedWith.Some?
    ensures Unassociated(cs) == []
    decreases |cs|
  {
    if |cs| > 0 {
      UnassociatedOfReorder(cs[1..]);
    }
  }

  /** The edit pass of a pure reorder issues nothing. */
  lemma ReorderEditSilent(s: State, d: Difference)
    requires PureReorder(d)
    ensures ElementEdit(s, d).log == s.log
  {
    EditRequestsEmpty(s.service, d.insertions, d.removals);
    forall i | 0 <= i < |d.insertions| ensures d.insertions[i].associatedWith.Some? {
      assert d.insertions[i] == Changes(d)[|d.removals| + i];
    }
  }

  /** The array pass of a pure reorder issues nothing. */
  lemma ReorderArraySilent(s: State, d: Difference)
    requires RemovalsHaveIds(Changes(d)) && PureReorder(d)
    ensures ArrayEdit(s, d).log == s.log
  {
    UnassociatedOfReorder(Changes(d));
    ArrayRequestsDispatch(s.service, s.local, Changes(d));
  }

  /** Moving elements around sends no PUT, POST or DELETE: only the GETs of server strategies. */
  lemma PureReorderIssuesOnlyGets(s: State, newValue: seq<Element>, d1: Difference, d2: Difference)
    requires Valid(s.local, newValue, d1)
    requires Valid(ElementEdit(s, d1).local, newValue, d2)
    requires RemovalsHaveIds(Changes(d2))
    requires PureReorder(d1) && PureReorder(d2)
    ensures Write(s, newValue, d1, d2).log == s.log + RefreshGets(Reconcile(s, d1, d2))
  {
    ReorderEditSilent(s, d1);
    ReorderArraySilent(ElementEdit(s, d1), d2);
    RefreshRequests(Reconcile(s, d1, d2));
  }

  /**
   * After a write the array is the filtered array, sorted: the elements are
   * those of the array the network passes left that pass every filter
   * operation, and the keys are in order; with caching the array is saved.
   */
  lemma WriteFiltersThenSorts(s: State, newValue: seq<Element>, d1: Difference, d2: Difference)
    requires Valid(s.local, newValue, d1)
    requires Valid(ElementEdit(s, d1).local, newValue, d2)
    requires RemovalsHaveIds(Changes(d2))
    ensures var w := Write(s, newValue, d1, d2);
            var ops := FilterOperations(s.filterStrategy);
            && multiset(w.local) == multiset(KeepAll(Reconcile(s, d1, d2).local, ops))
            && (forall e :: e in w.local ==> SatisfiesAll(e, ops))
            && (!s.sortStrategy.NoSort? ==>
                  var sorter := s.sortStrategy.sorter;
                  Ordered(w.local, sorter.path.get, ComparatorFor(sorter.direction)))
            && (s.caching ==> w.saved == Some(w.local))
  {
    RefreshLocal(Reconcile(s, d1, d2));
  }

  /** Once every server strategy is applied, a write keeps the server query and stays settled. */
  lemma WriteKeepsQuery(s: State, newValue: seq<Element>, d1: Difference, d2: Difference)
    requires Valid(s.local, newValue, d1)
    requires Valid(ElementEdit(s, d1).local, newValue, d2)
    requires RemovalsHaveIds(Changes(d2))
    requires Settled(s)
    ensures Write(s, newValue, d1, d2).service == s.service
    ensures Settled(Write(s, newValue, d1, d2))
  {
    RefreshKeepsQuery(Reconcile(s, d1, d2));
  }

  // ---------------------------------------------------------------------------
  // Construction

  /** The items a server filter appends to a fresh service, or none. */
  function ServerFilterItems(svc: Service, fs: FilterStrategy): seq<QueryItem> {
    match fs
    case ServerFilter(ops, own) => Filters.ApplyServerStrategy(ops, FilterTranslatorFor(own, svc))
    case _ => []
  }

  /** The item a server sort appends to a fresh service, or none. */
  function ServerSortItems(svc: Service, ss: SortStrategy): seq<QueryItem> {
    match ss
    case ServerSort(sorter, own) => [Sorters.ApplyServerStrategy(sorter, SortTranslatorFor(own, svc))]
    case _ => []
  }

  /**
   * Construction appends the filter items, then the `sort_by` item, to the
   * service's query (no server strategy: the service stays as given), and
   * leaves every server strategy applied.
   */
  lemma InitQuery(service: Service, fs: FilterStrategy, ss: SortStrategy, caching: bool, typeName: string, loaded: seq<Element>)
    ensures var r := Init(service, fs, ss, caching, typeName, loaded);
            && r.service.url == service.url
            && (fs.ServerFilter? || ss.ServerSort? ==>
                  r.service.urlComponents.queryItems
                  == Some(service.urlComponents.queryItems.GetOr([]) + ServerFilterItems(service, fs) + ServerSortItems(service, ss)))
            && (!fs.ServerFilter? && !ss.ServerSort? ==> r.service == service)
            && Settled(r)
  {
    var s0 := State([], [], service, fs, ss, false, false, caching, "", None);
    var f := FilterPass(s0);
    var before := service.urlComponents.queryItems.GetOr([]);
    var fi := ServerFilterItems(service, fs);
    var si := ServerSortItems(service, ss);
    assert f.service == (if fs.ServerFilter? then AppendQuery(service, fi) else service);
    if ss.ServerSort? {
      assert SortTranslatorFor(ss.translator, f.service) == SortTranslatorFor(ss.translator, service);
      assert SortPass(f).service == AppendQuery(f.service, si);
      if fs.ServerFilter? {
        AppendQueryTwice(service, fi, si);
      } else {
        assert fi == [] && before + fi == before;
      }
    } else if fs.ServerFilter? {
      assert si == [] && before + fi + si == before + fi;
    }
  }

  /**
   * Construction issues only GETs: one per server strategy and a final one,
   * all after the query is complete except the server filter's when a server
   * sort follows it. With a server sort the last two go to the same address.
   */
  lemma InitRequests(service: Service, fs: FilterStrategy, ss: SortStrategy, caching: bool, typeName: string, loaded: seq<Element>)
    ensures var r := Init(service, fs, ss, caching, typeName, loaded);
            && |r.log| == 1 + (if fs.ServerFilter? then 1 else 0) + (if ss.ServerSort? then 1 else 0)
            && OnlyGets(r.log)
            && r.log[|r.log| - 1] == GetRequest(r.service)
            && (ss.ServerSort? ==> r.log[|r.log| - 2] == r.log[|r.log| - 1])
            && (!ss.ServerSort? ==> forall k :: 0 <= k < |r.log| ==> r.log[k] == GetRequest(r.service))
            && (fs.ServerFilter? && ss.ServerSort? ==>
                  r.log[0] == GetRequest(AppendQuery(service, ServerFilterItems(service, fs))))
  {
    var s0 := State([], [], service, fs, ss, false, false, caching, "", None);
    var f := FilterPass(s0);
    var t := SortPass(f);
    var r := Init(service, fs, ss, caching, typeName, loaded);
    var a := if fs.ServerFilter? then [GetRequest(f.service)] else [];
    var b := if ss.ServerSort? then [GetRequest(t.service)] else [];
    FilterPassEffect(s0);
    SortPassEffect(f);
    assert t.log == a + b;
    assert r.service == t.service;
    assert r.log == a + b + [GetRequest(t.service)];
    if !ss.ServerSort? {
      assert t.service == f.service;
    } else if fs.ServerFilter? {
      assert f.service == AppendQuery(service, ServerFilterItems(service, fs));
      assert r.log[0] == a[0];
    }
  }

  /** Without caching the array starts empty; with caching it is the cached array, unfiltered and unsorted. */
  lemma InitLocal(service: Service, fs: FilterStrategy, ss: SortStrategy, caching: bool, typeName: string, loaded: seq<Element>)
    ensures var r := Init(service, fs, ss, caching, typeName, loaded);
            && (caching ==> r.local == loaded && r.storagePath == typeName + ComposedAddress(r.service))
            && (!caching ==> r.local == [] && r.storagePath == "")
            && r.saved.None?
  {
    var s0 := State([], [], service, fs, ss, false, false, caching, "", None);
    ClientFilterMeaning([], [], FilterOperations(fs));
    assert |SortPass(FilterPass(s0)).local| == 0;
  }

  // ---------------------------------------------------------------------------
  // Responses

  /** The latest request is never cancelled. */
  lemma LatestIsLive(log: seq<Request>)
    requires |log| > 0
    ensures Live(log, |log| - 1)
  {
  }

  /** A GET answered while still live sets the array to the response, or to `[]` on failure. */
  lemma GetResponseReplaces(s: State, k: nat, response: Result<seq<Element>>)
    requires k < |s.log| && s.log[k].verb == GET && Live(s.log, k)
    ensures GetCompleted(s, k, response).local == (if response.Success? then response.value else [])
    ensures GetCompleted(s, k, response).log == s.log
  {
  }

  /** No request of the sequence sits in the GET slot. */
  predicate NoGetSlot(rs: seq<Request>) {
    forall k :: 0 <= k < |rs| ==> rs[k].slot != GetSlot
  }

  /** The edit pass sends only PUTs and their POST fallbacks, all from the PUT slot. */
  lemma EditRequestsSlots(svc: Service, insertions: seq<Change>, removals: seq<Change>)
    ensures NoGetSlot(EditRequests(svc, insertions, removals))
  {
    var rs := EditRequests(svc, insertions, removals);
    EditRequestsArePuts(svc, insertions, removals);
    forall k | 0 <= k < |rs| ensures rs[k].slot == PutSlot {
      assert rs[k] in rs;
    }
  }

  /** The array pass sends from the DELETE, PUT and POST slots only. */
  lemma ArrayRequestsSlots(svc: Service, local: seq<Element>, cs: seq<Change>)
    requires RemovalsHaveIds(cs)
    ensures NoGetSlot(ArrayRequests(svc, local, cs))
  {
    ArrayRequestsDispatch(svc, local, cs);
  }

  /** A live request stays live after more requests exactly when none of them uses its slot. */
  lemma LiveAfterAppend(log: seq<Request>, tail: seq<Request>, k: nat)
    requires Live(log, k)
    ensures Live(log + tail, k) <==> forall j :: 0 <= j < |tail| ==> tail[j].slot != log[k].slot
  {
    var all := log + tail;
    if forall j :: 0 <= j < |tail| ==> tail[j].slot != log[k].slot {
      forall j | k < j < |all| ensures all[j].slot != all[k].slot {
        if j >= |log| {
          assert all[j] == tail[j - |log|];
        }
      }
    } else {
      var j :| 0 <= j < |tail| && tail[j].slot == log[k].slot;
      assert all[|log| + j] == tail[j];
    }
  }

  /** The GETs of `Refresh` all sit in the GET slot, and there is one exactly when a strategy is on the server. */
  lemma RefreshGetsSlots(s: State)
    ensures forall j :: 0 <= j < |RefreshGets(s)| ==> RefreshGets(s)[j].slot == GetSlot
    ensures RefreshGets(s) == [] <==> !s.filterStrategy.ServerFilter? && !s.sortStrategy.ServerSort?
  {
  }

  /** Requests outside the GET slot followed by GETs: none in the GET slot exactly when there are no GETs. */
  lemma TailSlots(e: seq<Request>, a: seq<Request>, g: seq<Request>)
    requires NoGetSlot(e) && NoGetSlot(a)
    requires forall j :: 0 <= j < |g| ==> g[j].slot == GetSlot
    ensures NoGetSlot(e + a + g) <==> g == []
  {
    var t := e + a + g;
    if g != [] {
      assert t[|e| + |a|] == g[0];
    } else {
      forall j | 0 <= j < |t| ensures t[j].slot != GetSlot {
        if j < |e| {
          assert t[j] == e[j];
        } else {
          assert t[j] == a[j - |e|];
        }
      }
    }
  }

  lemma ConcatTail(x: seq<Request>, e: seq<Request>, a: seq<Request>, g: seq<Request>)
    ensures x + e + a + g == x + (e + a + g) && (x + e + a + g)[|x|..] == e + a + g
  {
  }

  /** The requests a write sends after the log it started from: one in the GET slot exactly when a strategy is on the server. */
  lemma WriteTail(s: State, newValue: seq<Element>, d1: Difference, d2: Difference)
    requires Valid(s.local, newValue, d1)
    requires Valid(ElementEdit(s, d1).local, newValue, d2)
    requires RemovalsHaveIds(Changes(d2))
    ensures var w := Write(s, newValue, d1, d2);
            && w.log == s.log + w.log[|s.log|..]
            && (NoGetSlot(w.log[|s.log|..]) <==> !s.filterStrategy.ServerFilter? && !s.sortStrategy.ServerSort?)
  {
    var rec := Reconcile(s, d1, d2);
    var e := EditRequests(s.service, d1.insertions, d1.removals);
    var a := ArrayRequests(s.service, EditPassLocal(s.local, d1.insertions, d1.removals), Changes(d2));
    var g := RefreshGets(rec);
    WriteRequests(s, newValue, d1, d2);
    EditRequestsSlots(s.service, d1.insertions, d1.removals);
    ArrayRequestsSlots(s.service, EditPassLocal(s.local, d1.insertions, d1.removals), Changes(d2));
    RefreshGetsSlots(rec);
    TailSlots(e, a, g);
    ConcatTail(s.log, e, a, g);
  }

  /**
   * A write cancels a GET that was still live exactly when the binding has a
   * server strategy: only `filter()` and `sort()` send GETs, and the new one
   * takes over the GET slot, so the old response changes nothing.
   */
  lemma WriteCancelsGet(s: State, newValue: seq<Element>, d1: Difference, d2: Difference, k: nat, response: Result<seq<Element>>)
    requires Valid(s.local, newValue, d1)
    requires Valid(ElementEdit(s, d1).local, newValue, d2)
    requires RemovalsHaveIds(Changes(d2))
    requires Live(s.log, k) && s.log[k].verb == GET && s.log[k].slot == GetSlot
    ensures var w := Write(s, newValue, d1, d2);
            && (Live(w.log, k) <==> !s.filterStrategy.ServerFilter? && !s.sortStrategy.ServerSort?)
            && (!Live(w.log, k) ==> GetCompleted(w, k, response) == w)
  {
    var w := Write(s, newValue, d1, d2);
    WriteTail(s, newValue, d1, d2);
    LiveAfterAppend(s.log, w.log[|s.log|..], k);
  }

  /**
   * The GET construction ends with is answered only if no write with a
   * server strategy came in between: such a write cancels it, and a write
   * without one leaves it live, so its response then replaces what the
   * write made of the array.
   */
  lemma InitGetAfterWrite(service: Service, fs: FilterStrategy, ss: SortStrategy, caching: bool, typeName: string,
                          loaded: seq<Element>, newValue: seq<Element>, d1: Difference, d2: Difference,
                          response: Result<seq<Element>>)
    requires Valid(Init(service, fs, ss, caching, typeName, loaded).local, newValue, d1)
    requires Valid(ElementEdit(Init(service, fs, ss, caching, typeName, loaded), d1).local, newValue, d2)
    requires RemovalsHaveIds(Changes(d2))
    ensures var s := Init(service, fs, ss, caching, typeName, loaded);
            var w := Write(s, newValue, d1, d2);
            && (Live(w.log, |s.log| - 1) <==> !fs.ServerFilter? && !ss.ServerSort?)
            && (fs.ServerFilter? || ss.ServerSort? ==> GetCompleted(w, |s.log| - 1, response) == w)
            && (!fs.ServerFilter? && !ss.ServerSort? ==>
                  GetCompleted(w, |s.log| - 1, response).local == response.ReplaceError([]))
  {
    var s := Init(service, fs, ss, caching, typeName, loaded);
    LatestIsLive(s.log);
    WriteCancelsGet(s, newValue, d1, d2, |s.log| - 1, response);
  }

  /** A response to a GET superseded by a later one is dropped. */
  lemma SupersededGetIgnored(s: State, k: nat, j: nat, response: Result<seq<Element>>)
    requires k < j < |s.log| && s.log[k].verb == GET && s.log[j].slot == GetSlot && s.log[k].slot == GetSlot
    ensures GetCompleted(s, k, response).local == s.local
  {
  }

  /** A live POST (or PUT fallen back to POST) appends the server's copy; a superseded one is dropped. */
  lemma PostResponseAppends(s: State, k: nat, response: Element)
    requires k < |s.log| && s.log[k].verb == POST
    ensures Live(s.log, k) ==> PostCompleted(s, k, response).local == s.local + [response]
    ensures !Live(s.log, k) ==> PostCompleted(s, k, response).local == s.local
  {
  }

  /**
   * The corrected POST completion: the server's copy joins the array exactly
   * when it passes the filter, the array keeps only elements that pass it,
   * and nothing is sent.
   */
  lemma PostResponseKept(s: State, k: nat, response: Element)
    requires k < |s.log| && s.log[k].verb == POST && Live(s.log, k)
    ensures var r := PostCompletedKept(s, k, response);
            var ops := FilterOperations(s.filterStrategy);
            && multiset(r.local) == multiset(KeepAll(s.local + [response], ops))
            && (forall e :: e in r.local ==> SatisfiesAll(e, ops))
            && (response in r.local <==> SatisfiesAll(response, ops))
            && r.log == s.log && r.service == s.service
  {
    var ops := FilterOperations(s.filterStrategy);
    var xs := s.local + [response];
    RefreshLocal(s.(local := xs));
    KeepAllMeaning(xs, ops);
    var r := PostCompletedKept(s, k, response);
    assert multiset(r.local)[response] == multiset(KeepAll(xs, ops))[response];
    assert response in xs;
  }

  /** The corrected POST completion keeps the array in key order. */
  lemma PostResponseKeptSorted(s: State, k: nat, response: Element)
    requires k < |s.log| && s.log[k].verb == POST && Live(s.log, k)
    requires !s.sortStrategy.NoSort?
    ensures Ordered(PostCompletedKept(s, k, response).local, s.sortStrategy.sorter.path.get,
                    ComparatorFor(s.sortStrategy.sorter.direction))
  {
    RefreshLocal(s.(local := s.local + [response]));
  }

  /**
   * The corrected GET completion: the array keeps exactly the response's
   * elements that pass the filter, in key order, and nothing is sent.
   */
  lemma GetResponseKept(s: State, k: nat, response: Result<seq<Element>>)
    requires k < |s.log| && s.log[k].verb == GET && Live(s.log, k)
    ensures var r := GetCompletedKept(s, k, response);
            var ops := FilterOperations(s.filterStrategy);
            && multiset(r.local) == multiset(KeepAll(response.ReplaceError([]), ops))
            && (forall e :: e in r.local <==> e in response.ReplaceError([]) && SatisfiesAll(e, ops))
            && (!s.sortStrategy.NoSort? ==>
                  Ordered(r.local, s.sortStrategy.sorter.path.get, ComparatorFor(s.sortStrategy.sorter.direction)))
            && r.log == s.log && r.service == s.service
  {
    var ops := FilterOperations(s.filterStrategy);
    var xs := response.ReplaceError([]);
    RefreshLocal(s.(local := xs));
    KeepAllMeaning(xs, ops);
    var r := GetCompletedKept(s, k, response);
    forall e
      ensures e in r.local <==> e in xs && SatisfiesAll(e, ops)
    {
      assert e in r.local <==> multiset(r.local)[e] > 0;
      assert e in KeepAll(xs, ops) <==> multiset(KeepAll(xs, ops))[e] > 0;
    }
  }

  /** Right after construction a failing GET leaves the array empty, whatever was cached. */
  lemma InitGetFailureEmpties(service: Service, fs: FilterStrategy, ss: SortStrategy, caching: bool, typeName: string, loaded: seq<Element>)
    ensures var r := Init(service, fs, ss, caching, typeName, loaded);
            GetCompleted(r, |r.log| - 1, Failure).local == []
  {
    InitRequests(service, fs, ss, caching, typeName, loaded);
  }
}
