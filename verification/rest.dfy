/**
 * The `@REST` property wrapper: a local array kept in step with a REST
 * collection. Every assignment to the array is one `Write` step that turns
 * the difference between the old and the new array into GET, POST, PUT and
 * DELETE requests and updates the local array; network responses are
 * separate event steps.
 */
module Rest {
  import opened Wrappers
  import opened Elements
  import opened Services
  import opened Filters
  import opened Sorters
  import Decimal

  datatype Method = GET | POST | PUT | DELETE

  /**
   * The cancellable a request's subscription is stored in. Storing a new
   * subscription releases, and so cancels, the previous one in that slot.
   */
  datatype Slot = GetSlot | PostSlot | PutSlot | DeleteSlot

  /** One request handed to the network handler. */
  datatype Request = Request(verb: Method, url: string, body: Option<Element>, slot: Slot)

  /**
   * One entry of a collection difference: the offset (into the old array for
   * a removal, into the new one for an insertion), the element, and the
   * offset of the associated opposite change when the change is half of a move.
   */
  datatype Change =
    | Insert(offset: nat, element: Element, associatedWith: Option<nat>)
    | Remove(offset: nat, element: Element, associatedWith: Option<nat>)

  /** A collection difference: removals and insertions, each in ascending offset order. */
  datatype Difference = Difference(removals: seq<Change>, insertions: seq<Change>)

  /** The binding: local array, request log, endpoint, strategies and their `applied` flags, cache. */
  datatype State = State(
    local: seq<Element>,
    log: seq<Request>,
    service: Service,
    filterStrategy: FilterStrategy,
    sortStrategy: SortStrategy,
    filterApplied: bool,
    sortApplied: bool,
    caching: bool,
    storagePath: string,
    saved: Option<seq<Element>>)

  // ---------------------------------------------------------------------------
  // Differences

  function Reverse(xs: seq<Change>): (r: seq<Change>)
    ensures |r| == |xs|
    ensures forall i :: 0 <= i < |xs| ==> r[i] == xs[|xs| - 1 - i]
  {
    if |xs| == 0 then [] else Reverse(xs[1..]) + [xs[0]]
  }

  /** The order `for change in difference` visits: removals from the highest offset down, then insertions. */
  function Changes(d: Difference): seq<Change> {
    Reverse(d.removals) + d.insertions
  }

  predicate Ascending(cs: seq<Change>) {
    forall i :: 0 < i < |cs| ==> cs[i - 1].offset < cs[i].offset
  }

  /** Removals hold only `Remove`s and insertions only `Insert`s, each list in ascending offset order. */
  predicate WellFormed(d: Difference) {
    && (forall i :: 0 <= i < |d.removals| ==> d.removals[i].Remove?)
    && (forall i :: 0 <= i < |d.insertions| ==> d.insertions[i].Insert?)
    && Ascending(d.removals)
    && Ascending(d.insertions)
  }

  /** Removes the elements at the removal offsets, highest first; each must be the element recorded. */
  function ApplyRemovals(xs: seq<Element>, rs: seq<Change>): Option<seq<Element>>
    decreases |rs|
  {
    if |rs| == 0 then Some(xs)
    else
      var c := rs[|rs| - 1];
      if c.Remove? && c.offset < |xs| && xs[c.offset] == c.element then
        ApplyRemovals(xs[..c.offset] + xs[c.offset + 1..], rs[..|rs| - 1])
      else None
  }

  /** Inserts the elements at their final offsets, lowest first. */
  function ApplyInsertions(xs: seq<Element>, ins: seq<Change>): Option<seq<Element>>
    decreases |ins|
  {
    if |ins| == 0 then Some(xs)
    else
      var c := ins[0];
      if c.Insert? && c.offset <= |xs| then
        ApplyInsertions(xs[..c.offset] + [c.element] + xs[c.offset..], ins[1..])
      else None
  }

  /** A removal and an insertion that name each other and carry the same element: one move. */
  predicate Paired(r: Change, i: Change) {
    r.associatedWith == Some(i.offset) && i.associatedWith == Some(r.offset) && r.element == i.element
  }

  /** Every association points at an opposite change that points back. */
  predicate AssociationsMatch(d: Difference) {
    && (forall i :: 0 <= i < |d.removals| && d.removals[i].associatedWith.Some? ==>
          exists j :: 0 <= j < |d.insertions| && Paired(d.removals[i], d.insertions[j]))
    && (forall j :: 0 <= j < |d.insertions| && d.insertions[j].associatedWith.Some? ==>
          exists i :: 0 <= i < |d.removals| && Paired(d.removals[i], d.insertions[j]))
  }

  /** `after.difference(from: before).inferringMoves()` may return `d`: applying `d` to `before` yields `after`. */
  predicate Valid(before: seq<Element>, after: seq<Element>, d: Difference) {
    && WellFormed(d)
    && AssociationsMatch(d)
    && match ApplyRemovals(before, d.removals)
       case None => false
       case Some(rest) => ApplyInsertions(rest, d.insertions) == Some(after)
  }

  /** Every unassociated removal names an element with an id (the DELETE path force-unwraps it). */
  predicate RemovalsHaveIds(cs: seq<Change>) {
    forall i :: 0 <= i < |cs| && cs[i].Remove? && cs[i].associatedWith.None? ==> cs[i].element.id.Some?
  }

  // ---------------------------------------------------------------------------
  // Local array helpers

  /** `removeAll { $0.id == id }`: every element with that id goes, the rest keep their order. */
  function RemoveAllWithId(xs: seq<Element>, id: Option<int>): (r: seq<Element>)
    ensures |r| <= |xs|
  {
    if |xs| == 0 then []
    else (if xs[0].id == id then [] else [xs[0]]) + RemoveAllWithId(xs[1..], id)
  }

  /** `removeAll` keeps every other element as often as it occurred and no element with the id. */
  lemma {:induction false} RemoveAllWithIdMeaning(xs: seq<Element>, id: Option<int>)
    ensures forall e :: multiset(RemoveAllWithId(xs, id))[e] == if e.id == id then 0 else multiset(xs)[e]
    ensures forall e :: e in RemoveAllWithId(xs, id) <==> e in xs && e.id != id
  {
    if |xs| > 0 {
      RemoveAllWithIdMeaning(xs[1..], id);
      assert xs == [xs[0]] + xs[1..];
    }
    var r := RemoveAllWithId(xs, id);
    forall e ensures e in r <==> e in xs && e.id != id {
      assert e in r <==> multiset(r)[e] > 0;
      assert e in xs <==> multiset(xs)[e] > 0;
    }
  }

  /** `filter { $0.id == id }.first`. */
  function FirstWithId(xs: seq<Element>, id: Option<int>): (r: Option<Element>)
    ensures r.Some? ==> r.value in xs && r.value.id == id
    ensures r.None? ==> forall x :: x in xs ==> x.id != id
  {
    if |xs| == 0 then None
    else if xs[0].id == id then Some(xs[0])
    else FirstWithId(xs[1..], id)
  }

  // ---------------------------------------------------------------------------
  // Requests

  /** The element address `url/id` used by PUT and DELETE. */
  function ElementAddress(svc: Service, id: int): string {
    AppendRoute(svc, Decimal.IntToString(id))
  }

  /** `internalGet`: the collection address with every appended query item. */
  function GetRequest(svc: Service): Request {
    Request(GET, ComposedAddress(svc), None, GetSlot)
  }

  /** `internalPost`: the element goes to the base URL. */
  function PostRequest(svc: Service, e: Element, slot: Slot): Request {
    Request(POST, svc.url, Some(e), slot)
  }

  /** `internalPut`: to `url/id` when the element has an id, otherwise a POST in its place. */
  function PutRequest(svc: Service, e: Element): (r: Request)
    ensures e.id.Some? ==> r.verb == PUT && r.url == ElementAddress(svc, e.id.value)
    ensures e.id.None? ==> r.verb == POST && r.url == svc.url
    ensures r.body == Some(e) && r.slot == PutSlot
  {
    match e.id
    case Some(id) => Request(PUT, ElementAddress(svc, id), Some(e), PutSlot)
    case None => PostRequest(svc, e, PutSlot)
  }

  /** `internalDelete`: to `url/id`; the id must be present. */
  function DeleteRequest(svc: Service, e: Element): (r: Request)
    requires e.id.Some?
    ensures r.verb == DELETE && r.body.None? && r.slot == DeleteSlot
    ensures r.url == ElementAddress(svc, e.id.value)
  {
    Request(DELETE, ElementAddress(svc, e.id.value), None, DeleteSlot)
  }

  function Issue(s: State, r: Request): State {
    s.(log := s.log + [r])
  }

  // ---------------------------------------------------------------------------
  // Local effects at dispatch time (`handleNetworkChangeAndSetLocalData`)

  /** PUT: every element with the old element's id goes, and the new element is appended. */
  function PutLocal(local: seq<Element>, newElement: Element, oldElement: Element): seq<Element> {
    RemoveAllWithId(local, oldElement.id) + [newElement]
  }

  /** DELETE: every element with the old element's id goes. A POST changes nothing until its response. */
  function DeleteLocal(local: seq<Element>, oldElement: Element): seq<Element> {
    RemoveAllWithId(local, oldElement.id)
  }

  // ---------------------------------------------------------------------------
  // `handleElementEdit`

  /** How many removals carry an element with the same (optional) id as `e`; `nil == nil` counts. */
  function MatchingRemovals(e: Element, removals: seq<Change>): (n: nat)
    ensures n <= |removals|
  {
    if |removals| == 0 then 0
    else
      (if removals[0].Remove? && removals[0].element.id == e.id then 1 else 0)
      + MatchingRemovals(e, removals[1..])
  }

  /** `n` copies of one request. */
  function Repeat(r: Request, n: nat): (rs: seq<Request>)
    ensures |rs| == n && forall k :: 0 <= k < n ==> rs[k] == r
  {
    if n == 0 then [] else [r] + Repeat(r, n - 1)
  }

  /** The PUTs one change of the insertions issues in the edit pass: none unless it is an unassociated insertion. */
  function EditOneRequests(svc: Service, c: Change, removals: seq<Change>): seq<Request> {
    if c.Insert? && c.associatedWith.None? then Repeat(PutRequest(svc, c.element), MatchingRemovals(c.element, removals))
    else []
  }

  /**
   * The requests of the edit pass, in order: for each unassociated insertion,
   * one PUT of its element per removal sharing its id. They depend on the
   * difference alone, not on the array the pass is changing.
   */
  function EditRequests(svc: Service, insertions: seq<Change>, removals: seq<Change>): seq<Request> {
    if |insertions| == 0 then []
    else EditOneRequests(svc, insertions[0], removals) + EditRequests(svc, insertions[1..], removals)
  }

  /** The array after the PUTs of one unassociated insertion, one per removal sharing its id. */
  function EditAgainst(local: seq<Element>, newElement: Element, removals: seq<Change>): seq<Element>
    decreases |removals|
  {
    if |removals| == 0 then local
    else
      var c := removals[0];
      var local' := if c.Remove? && c.element.id == newElement.id then PutLocal(local, newElement, c.element) else local;
      EditAgainst(local', newElement, removals[1..])
  }

  /** The array after the edit pass over the insertions in order; associated insertions are skipped. */
  function EditPassLocal(local: seq<Element>, insertions: seq<Change>, removals: seq<Change>): seq<Element>
    decreases |insertions|
  {
    if |insertions| == 0 then local
    else
      var c := insertions[0];
      var local' := if c.Insert? && c.associatedWith.None? then EditAgainst(local, c.element, removals) else local;
      EditPassLocal(local', insertions[1..], removals)
  }

  /** Only the local array and the log have changed, and the log only by appending. */
  ghost predicate Extends(s: State, r: State) {
    && s.log <= r.log
    && r.service == s.service
    && r.filterStrategy == s.filterStrategy && r.filterApplied == s.filterApplied
    && r.sortStrategy == s.sortStrategy && r.sortApplied == s.sortApplied
    && r.caching == s.caching && r.storagePath == s.storagePath && r.saved == s.saved
  }

  /** `handleElementEdit`: the edit pass's PUTs are logged and the array goes through its replacements. */
  function ElementEdit(s: State, d: Difference): (r: State)
    ensures Extends(s, r)
  {
    s.(log := s.log + EditRequests(s.service, d.insertions, d.removals),
       local := EditPassLocal(s.local, d.insertions, d.removals))
  }

  // ---------------------------------------------------------------------------
  // `handleArrayEdit`

  /** The unassociated changes, in iteration order: the ones that reach the network. */
  function Unassociated(cs: seq<Change>): (r: seq<Change>)
    ensures |r| <= |cs|
  {
    if |cs| == 0 then []
    else (if cs[0].associatedWith.None? then [cs[0]] else []) + Unassociated(cs[1..])
  }

  /** `r` is a request the array pass may issue for change `c`. */
  predicate Dispatches(svc: Service, c: Change, r: Request) {
    if c.Remove? then c.element.id.Some? && r == DeleteRequest(svc, c.element)
    else r == PutRequest(svc, c.element) || r == PostRequest(svc, c.element, PostSlot)
  }

  /**
   * The request one change of the array pass issues: none for half of a move,
   * DELETE for a removal, PUT for an insertion whose id is present locally,
   * POST otherwise.
   */
  function ArrayRequest(svc: Service, local: seq<Element>, c: Change): (r: Option<Request>)
    requires c.Remove? && c.associatedWith.None? ==> c.element.id.Some?
    ensures r.Some? <==> c.associatedWith.None?
    ensures r.Some? ==> Dispatches(svc, c, r.value)
  {
    if c.associatedWith.Some? then None
    else if c.Remove? then Some(DeleteRequest(svc, c.element))
    else if FirstWithId(local, c.element.id).Some? then Some(PutRequest(svc, c.element))
    else Some(PostRequest(svc, c.element, PostSlot))
  }

  /** The local array after one change of the array pass. */
  function ArrayLocal(local: seq<Element>, c: Change): seq<Element> {
    if c.associatedWith.Some? then local
    else if c.Remove? then DeleteLocal(local, c.element)
    else match FirstWithId(local, c.element.id)
      case Some(found) => PutLocal(local, c.element, found)
      case None => local
  }

  lemma TailRemovalsHaveIds(cs: seq<Change>)
    requires |cs| > 0 && RemovalsHaveIds(cs)
    ensures RemovalsHaveIds(cs[1..])
  {
    forall i | 0 <= i < |cs[1..]| && cs[1..][i].Remove? && cs[1..][i].associatedWith.None?
      ensures cs[1..][i].element.id.Some?
    {
      assert cs[1..][i] == cs[i + 1];
    }
  }

  /**
   * The requests of the array pass over the changes in iteration order, each
   * decided against the array the earlier changes left.
   */
  function ArrayRequests(svc: Service, local: seq<Element>, cs: seq<Change>): seq<Request>
    requires RemovalsHaveIds(cs)
    decreases |cs|
  {
    if |cs| == 0 then []
    else
      TailRemovalsHaveIds(cs);
      var req := ArrayRequest(svc, local, cs[0]);
      (if req.Some? then [req.value] else []) + ArrayRequests(svc, ArrayLocal(local, cs[0]), cs[1..])
  }

  /** The array pass issues one request per unassociated change, in order, of the kind that change calls for. */
  lemma {:induction false} ArrayRequestsDispatch(svc: Service, local: seq<Element>, cs: seq<Change>)
    requires RemovalsHaveIds(cs)
    ensures |ArrayRequests(svc, local, cs)| == |Unassociated(cs)|
    ensures forall k :: 0 <= k < |Unassociated(cs)| ==> Dispatches(svc, Unassociated(cs)[k], ArrayRequests(svc, local, cs)[k])
    decreases |cs|
  {
    if |cs| > 0 {
      TailRemovalsHaveIds(cs);
      ArrayRequestsDispatch(svc, ArrayLocal(local, cs[0]), cs[1..]);
      assert Unassociated(cs) == (if cs[0].associatedWith.None? then [cs[0]] else []) + Unassociated(cs[1..]);
    }
  }

  /** The array after the array pass over the changes in iteration order. */
  function ArrayPassLocal(local: seq<Element>, cs: seq<Change>): seq<Element>
    decreases |cs|
  {
    if |cs| == 0 then local else ArrayPassLocal(ArrayLocal(local, cs[0]), cs[1..])
  }

  /** `handleArrayEdit`: the array pass's requests are logged and the array goes through its changes. */
  function ArrayEdit(s: State, d: Difference): (r: State)
    requires RemovalsHaveIds(Changes(d))
    ensures Extends(s, r)
  {
    s.(log := s.log + ArrayRequests(s.service, s.local, Changes(d)),
       local := ArrayPassLocal(s.local, Changes(d)))
  }

  // ---------------------------------------------------------------------------
  // `filter()` and `sort()`

  /** The translator a server filter uses: its own, else the service's, else the library default. */
  function FilterTranslatorFor(own: Option<FilterTranslator>, svc: Service): FilterTranslator {
    match own
    case Some(t) => t
    case None =>
      match svc.filterServerStrategy
      case Some(t) => t
      case None => DefaultFilterServerStrategy
  }

  /** The translator a server sort uses: its own, else the service's, else the library default. */
  function SortTranslatorFor(own: Option<SortTranslator>, svc: Service): SortTranslator {
    match own
    case Some(t) => t
    case None =>
      match svc.sortServerStrategy
      case Some(t) => t
      case None => DefaultSortServerStrategy
  }

  /** The query after `filter()`: a server filter not yet applied appends one item per operation. */
  function FilterService(s: State): Service {
    match s.filterStrategy
    case ServerFilter(ops, own) =>
      if s.filterApplied then s.service
      else AppendQuery(s.service, Filters.ApplyServerStrategy(ops, FilterTranslatorFor(own, s.service)))
    case _ => s.service
  }

  /** The operations the client pass applies: none without a filter. */
  function FilterOperations(fs: FilterStrategy): seq<Operation> {
    match fs
    case ServerFilter(ops, _) => ops
    case ClientFilter(ops) => ops
    case NoFilter => []
  }

  /**
   * `filter()`: a server filter appends its items once, issues a GET to the
   * resulting address every time, then falls through to the client pass; a
   * client filter only runs the client pass.
   */
  function FilterPass(s: State): (r: State)
    ensures s.log <= r.log && r.service.url == s.service.url && r.caching == s.caching
    ensures r.filterStrategy == s.filterStrategy && (r.filterStrategy.ServerFilter? ==> r.filterApplied)
    ensures r.sortStrategy == s.sortStrategy && r.sortApplied == s.sortApplied
  {
    var svc := FilterService(s);
    s.(service := svc,
       filterApplied := s.filterApplied || s.filterStrategy.ServerFilter?,
       log := s.log + (if s.filterStrategy.ServerFilter? then [GetRequest(svc)] else []),
       local := if s.filterStrategy.NoFilter? then s.local else ApplyClientFilter(s.local, FilterOperations(s.filterStrategy)))
  }

  /** The query after `sort()`: a server sort not yet applied appends its one `sort_by` item. */
  function SortService(s: State): Service {
    match s.sortStrategy
    case ServerSort(sorter, own) =>
      if s.sortApplied then s.service
      else AppendQuery(s.service, [Sorters.ApplyServerStrategy(sorter, SortTranslatorFor(own, s.service))])
    case _ => s.service
  }

  /** `sort()`: the same shape as `filter()`, with the client pass ordering the array by the key. */
  function SortPass(s: State): (r: State)
    ensures s.log <= r.log && r.service.url == s.service.url && r.caching == s.caching
    ensures r.sortStrategy == s.sortStrategy && (r.sortStrategy.ServerSort? ==> r.sortApplied)
    ensures r.filterStrategy == s.filterStrategy && r.filterApplied == s.filterApplied
  {
    var svc := SortService(s);
    s.(service := svc,
       sortApplied := s.sortApplied || s.sortStrategy.ServerSort?,
       log := s.log + (if s.sortStrategy.ServerSort? then [GetRequest(svc)] else []),
       local := match s.sortStrategy
                case NoSort => s.local
                case ServerSort(sorter, _) => ApplyClientSort(s.local, sorter)
                case ClientSort(sorter) => ApplyClientSort(s.local, sorter))
  }

  // ---------------------------------------------------------------------------
  // Steps

  /** The two network passes of the setter: edits against `d1`, then inserts and removes against `d2`. */
  function Reconcile(s: State, d1: Difference, d2: Difference): (r: State)
    requires RemovalsHaveIds(Changes(d2))
    ensures Extends(s, r)
  {
    ArrayEdit(ElementEdit(s, d1), d2)
  }

  /** The rest of the setter: `filter()`, then `sort()`, then saving the array when caching. */
  function Refresh(s: State): (r: State)
    ensures s.log <= r.log && r.service.url == s.service.url
    ensures r.filterStrategy == s.filterStrategy && r.sortStrategy == s.sortStrategy && Settled(r)
    ensures s.caching ==> r.saved == Some(r.local)
  {
    var s' := SortPass(FilterPass(s));
    s'.(saved := if s'.caching then Some(s'.local) else s'.saved)
  }

  /**
   * The `wrappedValue` setter. `d1` is the difference computed before the
   * edit pass and `d2` the one recomputed against the array the edit pass left.
   */
  function Write(s: State, newValue: seq<Element>, d1: Difference, d2: Difference): (r: State)
    requires Valid(s.local, newValue, d1)
    requires Valid(ElementEdit(s, d1).local, newValue, d2)
    requires RemovalsHaveIds(Changes(d2))
    ensures s.log <= r.log && r.service.url == s.service.url
    ensures r.filterStrategy == s.filterStrategy && r.sortStrategy == s.sortStrategy
    ensures Settled(r) && (s.caching ==> r.saved == Some(r.local))
  {
    Refresh(Reconcile(s, d1, d2))
  }

  /**
   * `init`: the array starts empty; filter then sort run (appending server
   * query items); with caching the storage path is fixed and the cached array
   * (`loaded`, empty when reading fails) replaces the local one; finally a GET.
   */
  function Init(service: Service, filterStrategy: FilterStrategy, sortStrategy: SortStrategy,
                caching: bool, typeName: string, loaded: seq<Element>): (r: State)
    ensures r.service.url == service.url
    ensures r.filterStrategy == filterStrategy && r.sortStrategy == sortStrategy && Settled(r)
    ensures |r.log| > 0 && r.log[|r.log| - 1] == GetRequest(r.service)
    ensures r.saved.None?
  {
    var s0 := State([], [], service, filterStrategy, sortStrategy, false, false, caching, "", None);
    var s2 := SortPass(FilterPass(s0));
    var s3 :=
      if caching then s2.(storagePath := typeName + ComposedAddress(s2.service), local := loaded)
      else s2;
    Issue(s3, GetRequest(s3.service))
  }

  /** Every server strategy has appended its query items. */
  predicate Settled(s: State) {
    && (s.filterStrategy.ServerFilter? ==> s.filterApplied)
    && (s.sortStrategy.ServerSort? ==> s.sortApplied)
  }

  /** Request `k` has not been cancelled: no later request was stored in the same slot. */
  predicate Live(log: seq<Request>, k: nat) {
    k < |log| && forall j :: k < j < |log| ==> log[j].slot != log[k].slot
  }

  /** A GET completes: a live one replaces the local array, with `[]` on error. */
  function GetCompleted(s: State, k: nat, response: Result<seq<Element>>): (r: State)
    requires k < |s.log| && s.log[k].verb == GET
    ensures r.(local := s.local) == s
    ensures !Live(s.log, k) ==> r == s
  {
    if Live(s.log, k) then s.(local := response.ReplaceError([])) else s
  }

  /** A POST (or a PUT that fell back to POST) returns the stored element: a live one appends it. */
  function PostCompleted(s: State, k: nat, response: Element): (r: State)
    requires k < |s.log| && s.log[k].verb == POST
    ensures r.(local := s.local) == s
    ensures !Live(s.log, k) ==> r == s
  {
    if Live(s.log, k) then s.(local := s.local + [response]) else s
  }

  /**
   * A POST completion that keeps the array as `filter()` and `sort()` leave
   * it: a live response is appended and the client passes run again over
   * the array, without a new request.
   */
  function PostCompletedKept(s: State, k: nat, response: Element): State
    requires k < |s.log| && s.log[k].verb == POST
  {
    if Live(s.log, k) then s.(local := Refresh(s.(local := s.local + [response])).local) else s
  }

  /**
   * A GET completion that keeps the array as `filter()` and `sort()` leave
   * it: a live response replaces the array and the client passes run again
   * over it, without a new request.
   */
  function GetCompletedKept(s: State, k: nat, response: Result<seq<Element>>): State
    requires k < |s.log| && s.log[k].verb == GET
  {
    if Live(s.log, k) then s.(local := Refresh(s.(local := response.ReplaceError([]))).local) else s
  }
}
