# ELBRUS `@REST` in Dafny

ELBRUS offers the `@REST` property wrapper. It binds a Swift array of elements to a REST collection on a server. Assigning a new array to the wrapper turns the difference between the old array and the new one into requests to the collection:
- a PUT for an edited element;
- a POST for a new element;
- a DELETE for a removed element.

The wrapper also updates its local copy of the array. An optional filter strategy and an optional sort strategy then run either on the server or on the client:
- a server strategy adds query items to the collection URL and issues a GET;
- a client strategy filters or sorts the local array.

The array can be cached to a file.

This project models that engine as pure functions over an immutable state:

- `Rest.State` is the wrapper's state. It holds:
  - the local array;
  - the log of every request handed to the network handler, in order;
  - the `Service`: the base URL and its URL components with the appended query items;
  - the two strategies and their `applied` flags;
  - the caching flag, the storage path, and the last saved array.
- `Rest.Init` is the initializer.
- `Rest.Write` is the `wrappedValue` setter. It has three parts:
  - the edit pass (`handleElementEdit`);
  - the array pass (`handleArrayEdit`), run against a second difference recomputed after the edit pass, as the setter does;
  - `filter()` and `sort()`, followed by saving when caching.
- `Rest.GetCompleted` and `Rest.PostCompleted` are the network responses, as separate event steps. Storing a new subscription in a cancellable slot (`cancelGet`, `cancelPost`, `cancelPut`, `cancelDelete`) cancels the previous one. So a response only takes effect while its request is still the latest in its slot (`Rest.Live`).
- A collection difference is given as removals and insertions, each in ascending offset order, and iterated as Swift does: removals from the last to the first, then insertions (`Rest.Changes`). Its validity is stated by `Rest.Valid`: applying the removals, then the insertions, turns the old array into the new one, and move associations pair up.
- Elements carry an optional integer `id` and named attributes. Attribute values are numbers or texts, with a total order: numbers before texts, texts lexicographic by code point. Swift orders strings by canonical equivalence instead (see `Elements.Less` under "Left out"). A key path is a name plus a getter.

The helpers are modelled in their own modules:
- `Filters`: filter operations, their query items and the client filter.
- `Sorters`: sorters, the `sort_by` item and the client sort.
- `KeyPathSort`: `sorted(on:by:)`.
- `Services`: the base URL, appending a route, appending query items.
- `Authorization`: the `Authorization` header value, with `Base64`, `Utf8` and `Decimal` as supporting codecs.

`RestProperties` states what a write, the initializer and the responses do. `RestScenarios` works through concrete runs on the account collection of the repository's tests:
- the single-request tests of `ELBRUSTests.swift` (append, edit, append with a known id, remove, edit and add together), and the reorder test, which sends nothing;
- the server filter and sort addresses, including the six tests of which translator builds the query;
- the client filter and sort results, and the last step of the combined client filter-and-sort test.

`RestScenarios` replays what each test sends and what the array holds. It does not replay the mock handler's bookkeeping, such as its count of registered calls. It also covers two runs no test makes: two POSTs in one assignment, and a POST response arriving after the client filter has run.

## Model

| member | source | states |
|---|---|---|
| Rest.Init | Sources/ELBRUS/REST.swift:62-94 | construction keeps the URL and the strategies, leaves every server strategy applied, saves nothing, and ends with a GET to the final address |
| Rest.Write | Sources/ELBRUS/REST.swift:98-126 | a write only appends to the request log, keeps the URL and the strategies, leaves every server strategy applied, and saves the array when caching |
| Rest.Reconcile | Sources/ELBRUS/REST.swift:100-104 | the two network passes change only the array and the log, and the log only by appending |
| Rest.Refresh | Sources/ELBRUS/REST.swift:106-122 | the strategy part of the setter only appends to the log, keeps the URL and the strategies, leaves the server strategies applied and saves the array when caching |
| Rest.ElementEdit | Sources/ELBRUS/REST.swift:146-156 | the edit pass changes only the array and the log, and the log only by appending |
| Rest.ArrayEdit | Sources/ELBRUS/REST.swift:163-186 | the array pass changes only the array and the log, and the log only by appending |
| Rest.FilterPass | Sources/ELBRUS/REST.swift:276-309 | `filter()` only appends to the log, keeps the URL and the sort strategy, and leaves a server filter applied |
| Rest.SortPass | Sources/ELBRUS/REST.swift:316-344 | `sort()` only appends to the log, keeps the URL and the filter strategy, and leaves a server sort applied |
| Rest.PutRequest | Sources/ELBRUS/REST.swift:249-259 | a PUT of the element to `url/id` when it has an id, otherwise a POST to the base URL, both from the PUT slot |
| Rest.DeleteRequest | Sources/ELBRUS/REST.swift:262-268 | a DELETE without a body to `url/id`, from the DELETE slot |
| Rest.GetCompleted | Sources/ELBRUS/REST.swift:233-238 | a GET response changes nothing but the array, and a cancelled one changes nothing at all |
| Rest.PostCompleted | Sources/ELBRUS/REST.swift:240-247 | a POST response changes nothing but the array, and a cancelled one changes nothing at all |
| Rest.ArrayRequest | Sources/ELBRUS/REST.swift:163-186 | a change of the array pass sends a request exactly when it is not half of a move; a removal sends a DELETE of its element, an insertion a PUT or POST of its element |
| Rest.ArrayRequestsDispatch | Sources/ELBRUS/REST.swift:163-186 | the array pass sends exactly one request per unassociated change, in iteration order, each of the kind its change calls for |
| Rest.RemoveAllWithIdMeaning | Sources/ELBRUS/REST.swift:221-226 | `removeAll` by id drops every element with that id and keeps every other element as often as it occurred |
| Rest.FirstWithId | Sources/ELBRUS/REST.swift:172-174 | the lookup by id yields an element of the array with that id, and yields none only when no element has it |
| RestProperties.ElementAddressInjective | Sources/ELBRUS/REST.swift:249-268 | the `url/id` address of a PUT or DELETE determines the id: two ids never share an address |
| RestProperties.RemovalDeletes | Sources/ELBRUS/REST.swift:221-226 | an unassociated removal sends a DELETE to `url/id` and removes at once every local element with that id, nothing else |
| RestProperties.InsertionOfKnownIdPuts | Sources/ELBRUS/REST.swift:170-179 | an unassociated insertion whose id is already in the local array sends a PUT of the new element, and the local elements with that id are replaced by the new element, appended last |
| RestProperties.InsertionOfNewIdPosts | Sources/ELBRUS/REST.swift:180-182 | an unassociated insertion whose id is not in the local array POSTs the element to the collection URL and leaves the local array alone until the response |
| RestProperties.MoveDispatchesNothing | Sources/ELBRUS/REST.swift:166-171 | a change that is half of a move sends nothing and changes nothing |
| RestProperties.MatchingRemovalsZero | Sources/ELBRUS/REST.swift:147-148 | an insertion sends no PUT in the edit pass exactly when no removal shares its id |
| RestProperties.EditRequestsArePuts | Sources/ELBRUS/REST.swift:146-156 | every request of the edit pass is the PUT (or its POST fallback) of an unassociated insertion's element |
| RestProperties.EditRequestsEmpty | Sources/ELBRUS/REST.swift:146-156 | the edit pass is silent exactly when no unassociated insertion shares its id with a removal |
| RestProperties.EditAgainstLocal | Sources/ELBRUS/REST.swift:206-214 | however many removals share the new element's id, the edit leaves every element of that id gone and the new element appended once; with no such removal the array is untouched |
| RestProperties.RemoveAllWithIdIdempotent | Sources/ELBRUS/REST.swift:210 | removing the elements of an id a second time changes nothing |
| RestProperties.FilterPassEffect | Sources/ELBRUS/REST.swift:276-309 | `filter()` leaves exactly the elements passing every operation, sends a GET only for a server filter, and leaves the sort strategy alone |
| RestProperties.FilterPassAppends | Sources/ELBRUS/REST.swift:281-294 | only the first pass of a server filter grows the query, by one item per operation after the items already there; every other pass keeps it |
| RestProperties.FilterOwnTranslatorFirst | Sources/ELBRUS/REST.swift:283-284 | a translator on the filter strategy decides the query alone: the items are the same whatever translator the service holds |
| RestProperties.FilterServiceTranslatorNext | Sources/ELBRUS/REST.swift:285-287 | a strategy without a translator uses the service's exactly as if it carried that translator itself |
| RestProperties.FilterDefaultTranslatorLast | Sources/ELBRUS/REST.swift:288-290 | with no translator on the strategy or the service, the query is what the library default translator builds |
| RestProperties.FilterPassOnce | Sources/ELBRUS/REST.swift:282-294 | a second `filter()` never changes the query again |
| RestProperties.SortPassEffect | Sources/ELBRUS/REST.swift:316-344 | `sort()` rearranges the array (a permutation) into key order in the sorter's direction, and sends a GET only for a server sort |
| RestProperties.SortPassAppends | Sources/ELBRUS/REST.swift:320-333 | only the first pass of a server sort grows the query, by one item after the items already there |
| RestProperties.SortOwnTranslatorFirst | Sources/ELBRUS/REST.swift:322-323 | a translator on the sort strategy decides the `sort_by` item whatever translator the service holds |
| RestProperties.SortServiceTranslatorNext | Sources/ELBRUS/REST.swift:324-326 | a sort strategy without a translator uses the service's exactly as if it carried that translator itself |
| RestProperties.SortDefaultTranslatorLast | Sources/ELBRUS/REST.swift:327-329 | with no translator on the strategy or the service, the item is what the library default translator builds |
| RestProperties.SortPassOnce | Sources/ELBRUS/REST.swift:321-333 | a second `sort()` never changes the query again |
| RestProperties.RefreshRequests | Sources/ELBRUS/REST.swift:106-118 | the strategy part of the setter sends at most two requests, all GETs: the server filter's, then the server sort's |
| RestProperties.RefreshWithoutStrategies | Sources/ELBRUS/REST.swift:106-122 | without strategies the strategy part changes neither the array, the log nor the query; it only saves the array when caching |
| RestProperties.RefreshLocal | Sources/ELBRUS/REST.swift:106-122 | after the strategy part the array holds exactly the elements passing the filter, in key order, and is the saved array when caching |
| RestProperties.RefreshKeepsQuery | Sources/ELBRUS/REST.swift:106-118 | once every server strategy is applied, the strategy part keeps the query as it is |
| RestProperties.WriteRequests | Sources/ELBRUS/REST.swift:98-126 | a write sends the edit pass's PUTs, read off the first difference, then the array pass's requests for the recomputed difference, then the strategies' GETs, and nothing else |
| RestProperties.WriteWithoutStrategies | Sources/ELBRUS/REST.swift:98-126 | without strategies a write is the two network passes and nothing else, and the array is what the array pass leaves |
| RestProperties.ReorderEditSilent | Sources/ELBRUS/REST.swift:146-156 | the edit pass of a difference made only of moves sends nothing |
| RestProperties.ReorderArraySilent | Sources/ELBRUS/REST.swift:163-186 | the array pass of a difference made only of moves sends nothing |
| RestProperties.PureReorderIssuesOnlyGets | Sources/ELBRUS/REST.swift:98-126 | assigning the same elements in another order sends no PUT, POST or DELETE, only the strategies' GETs |
| RestProperties.WriteFiltersThenSorts | Sources/ELBRUS/REST.swift:106-122 | after a write the array holds exactly the elements the network passes left that pass the filter, in key order, and is saved when caching |
| RestProperties.WriteKeepsQuery | Sources/ELBRUS/REST.swift:98-126 | once the server strategies are applied, no write changes the query |
| RestProperties.InitQuery | Sources/ELBRUS/REST.swift:74-86 | construction appends the filter items, then the `sort_by` item, to the service's query, and leaves every server strategy applied |
| RestProperties.InitRequests | Sources/ELBRUS/REST.swift:62-94 | construction sends only GETs: one per server strategy and a final one to the complete address. Without a server sort every GET goes to that address. With a server sort the last two do, and with a server filter as well the first goes to the address without the `sort_by` item |
| RestProperties.InitLocal | Sources/ELBRUS/REST.swift:88-91 | without caching the array starts empty; with caching it is the cached array, unfiltered and unsorted, and the storage path is the type name followed by the address |
| RestProperties.GetResponseReplaces | Sources/ELBRUS/REST.swift:233-238 | a live GET response replaces the array, and a failed GET empties it |
| RestProperties.SupersededGetIgnored | Sources/ELBRUS/REST.swift:233-238 | the response to a GET followed by a later GET is dropped |
| RestProperties.WriteCancelsGet | Sources/ELBRUS/REST.swift:98-126 | a write cancels a GET that was still live exactly when the binding has a server strategy, because only `filter()` and `sort()` send GETs and each replaces `cancelGet`; the cancelled GET's response changes nothing |
| RestProperties.InitGetAfterWrite | Sources/ELBRUS/REST.swift:93 | the GET that ends construction is dropped after a write with a server strategy. After a write without one its response still replaces the array |
| RestProperties.PostResponseAppends | Sources/ELBRUS/REST.swift:240-247 | a live POST response appends the server's copy of the element; a superseded one is dropped |
| RestProperties.PostResponseKept | Sources/ELBRUS/REST.swift:240-247 | corrected completion: the server's copy joins the array exactly when it passes the filter, the array keeps only elements passing it, and nothing is sent |
| RestProperties.PostResponseKeptSorted | Sources/ELBRUS/REST.swift:240-247 | corrected completion: the array stays in key order after the server's copy joins it |
| RestProperties.GetResponseKept | Sources/ELBRUS/REST.swift:233-238 | the corrected GET completion keeps exactly the response's elements that pass the filter, as often as they occur, in key order, and sends nothing |
| RestProperties.InitGetFailureEmpties | Sources/ELBRUS/REST.swift:233-238 | right after construction a failing GET leaves the array empty, whatever was cached |
| Filters.OperationName | Sources/ELBRUS/Helpers/Filter.swift:56-65 | the operation names are `gte`, `lte` and `exists` |
| Filters.ApplyServerStrategy | Sources/ELBRUS/Helpers/Filter.swift:76-94 | one query item per operation, in order, made from the property name, the operation name and the value's description |
| Filters.DefaultFilterNameRoundTrip | Sources/ELBRUS/Helpers/Filter.swift:104-106 | the default item name `property[operation]` can be split back into the property and the operation |
| Filters.KeepAllMeaning | Sources/ELBRUS/REST.swift:297-307 | the reference filter keeps every element passing all operations as often as it occurs, and no other |
| Filters.ClientFilterIsConjunction | Sources/ELBRUS/REST.swift:297-307 | one `filter` per operation in sequence equals a single pass keeping the elements that pass every operation |
| Filters.ClientFilterMeaning | Sources/ELBRUS/REST.swift:297-307 | the client filter keeps exactly the elements passing every operation, with their multiplicity and order, and distributes over concatenation |
| Sorters.ApplyServerStrategy | Sources/ELBRUS/Helpers/Sorter.swift:51-69 | the sort item is made from `asc` or `desc` and the property name, by the translator given |
| Sorters.DefaultSortRoundTrip | Sources/ELBRUS/Helpers/Sorter.swift:78-84 | the default `sort_by` item reads back as the sorter's direction and property (`+` ascending, `-` descending) |
| Sorters.DefaultSortOtherIsDescending | Sources/ELBRUS/Helpers/Sorter.swift:78-84 | any operation other than `asc` yields a descending item |
| Sorters.ClientSortMeaning | Sources/ELBRUS/REST.swift:336-342 | the client sort is a permutation with keys ascending for `asc` and descending for `desc` |
| KeyPathSort.SortedOn | Sources/ELBRUS/Helpers/CollectionExtensions.swift:14-20 | sorting on a key path keeps the number of elements; `KeyPathSort.SortedOnSorts` states the permutation and the order |
| KeyPathSort.SortedOnSorts | Sources/ELBRUS/Helpers/CollectionExtensions.swift:14-20 | sorting on a key path is a permutation that is in order under the comparator |
| KeyPathSort.OrderedMeaning | Sources/ELBRUS/Helpers/CollectionExtensions.swift:14-20 | an array in order under `<` has its keys ascending pairwise, and under `>` descending |
| Elements.LessIsStrictTotalOrder | Sources/ELBRUS/Helpers/CollectionExtensions.swift:15 | the order on attribute values is irreflexive, transitive and total, as `Comparable` requires |
| Services.NewService | Sources/ELBRUS/Helpers/Service.swift:20-29 | a new service over a URL without a query has no query items and is addressed by its URL |
| Services.AppendRoute | Sources/ELBRUS/Helpers/Service.swift:34-36 | appending a route yields an address that starts with the base URL and ends with the route |
| Services.AppendRouteInjective | Sources/ELBRUS/Helpers/Service.swift:34-36 | different routes give different addresses |
| Services.AppendRouteIgnoresQuery | Sources/ELBRUS/Helpers/Service.swift:34-41 | element addresses ignore the appended query items |
| Services.AppendQuery | Sources/ELBRUS/Helpers/Service.swift:40-42 | appending query items keeps the existing ones in front and changes nothing else |
| Services.AppendQueryTwice | Sources/ELBRUS/Helpers/Service.swift:40-42 | appending two lists in turn is appending their concatenation |
| Decimal.IntRoundTrip | Sources/ELBRUS/REST.swift:252 | the decimal description of an id parses back to the id |
| Authorization.PasswordDescription | Sources/ELBRUS/Helpers/Authorization.swift:49-55 | Basic credentials are described with the `Basic ` prefix |
| Authorization.TokenDescription | Sources/ELBRUS/Helpers/Authorization.swift:66-73 | a bearer token is `Bearer ` followed by the token; a custom token is the token itself |
| Authorization.AuthorizationHeaders | Sources/ELBRUS/Helpers/URLSessionNetworkHandler.swift:109-119 | no authorization adds no header; credentials or a token add one `Authorization` header with their description |
| Authorization.BasicEncodesUserPass | Sources/ELBRUS/Helpers/Authorization.swift:52-53 | the text after `Basic ` is the base64 of the UTF-8 octets of `user:password` |
| Authorization.BasicRoundTrip | Sources/ELBRUS/Helpers/Authorization.swift:49-55 | a user name without a colon and its password are recovered from the Basic header value |
| Base64.RoundTrip | Sources/ELBRUS/Helpers/Authorization.swift:52 | base64 decoding undoes base64 encoding |
| Utf8.RoundTrip | Sources/ELBRUS/Helpers/Authorization.swift:52 | UTF-8 decoding undoes UTF-8 encoding |
| RestScenarios.AppendIsOnePost | Tests/ELBRUSTests/ELBRUSTests.swift:95-116 | appending an account to the empty binding is one POST to `accounts`, and the array waits for the response |
| RestScenarios.EditIsOnePut | Tests/ELBRUSTests/ELBRUSTests.swift:121-146 | replacing the stored account 1 by a renamed account 1 is one PUT to `accounts/1` |
| RestScenarios.AppendKnownIdPuts | Tests/ELBRUSTests/ELBRUSTests.swift:151-176 | appending an account with the stored id 1 is one PUT to `accounts/1`, and the stored account is replaced rather than joined |
| RestScenarios.RemoveIsOneDelete | Tests/ELBRUSTests/ELBRUSTests.swift:181-205 | removing the stored account 1 is one DELETE to `accounts/1`, and the array is empty at once |
| RestScenarios.EditAndAddIsPutThenPost | Tests/ELBRUSTests/ELBRUSTests.swift:248-280 | editing account 1 and adding a new account in one assignment is a PUT to `accounts/1`, then a POST to `accounts` |
| RestScenarios.EditWithoutIdPosts | Sources/ELBRUS/REST.swift:249-259 | replacing an account without an id by another one without an id pairs them (`nil == nil`), and the PUT falls back to a POST |
| RestScenarios.ServerFilterAddress | Tests/ELBRUSTests/ELBRUSTests+FilterTests.swift:136-151 | a server `exists` filter on the name queries `accounts?name[exists]=Paul` |
| RestScenarios.ServerFilterAndSortAddress | Tests/ELBRUSTests/ELBRUSTests+FilterAndSortTests.swift:20-35 | with a server sort as well, the final GET queries `accounts?name[exists]=Paul&sort_by=+name` |
| RestScenarios.ReorderSendsNothing | Tests/ELBRUSTests/ELBRUSTests.swift:212-243 | assigning the stored accounts Tom, Max and Paul in the order Tom, Paul, Max sends no request, and the array keeps its old order |
| RestScenarios.TwoPostsKeepTheLast | Sources/ELBRUS/REST.swift:163-186 | two accounts inserted in one assignment are two POSTs from the same slot. Only the second stays live, so only its response reaches the array |
| RestScenarios.FilterStrategyTranslatorUsed | Tests/ELBRUSTests/ELBRUSTests+FilterTests.swift:220-235 | the strategy's colon translator on a plain service: two GETs to `accounts?name=exists:Paul`, where the test registers one |
| RestScenarios.FilterServiceTranslatorUsed | Tests/ELBRUSTests/ELBRUSTests+FilterTests.swift:240-255 | the service's colon translator, with none on the strategy: two GETs to `accounts?name=exists:Paul` |
| RestScenarios.FilterStrategyTranslatorWins | Tests/ELBRUSTests/ELBRUSTests+FilterTests.swift:260-275 | the strategy's round-bracket translator wins over the service's colon one: two GETs to `accounts?name(exists)=Paul` |
| RestScenarios.SortStrategyTranslatorUsed | Tests/ELBRUSTests/ELBRUSTests+SortTests.swift:145-164 | the strategy's dot translator on a plain service: two GETs to `accounts?sort_by=name.asc`, the two the test registers |
| RestScenarios.SortServiceTranslatorUsed | Tests/ELBRUSTests/ELBRUSTests+SortTests.swift:169-188 | the service's dot translator, with none on the strategy: two GETs to `accounts?sort_by=name.asc` |
| RestScenarios.SortStrategyTranslatorWins | Tests/ELBRUSTests/ELBRUSTests+SortTests.swift:193-212 | the strategy's round-bracket translator wins over the service's dot one: two GETs to `accounts?sort_by=asc(name)` |
| RestScenarios.FilterAndSortAfterPaul | Tests/ELBRUSTests/ELBRUSTests+FilterAndSortTests.swift:40-75 | with Max and Tom stored, the test expects Max first and two accounts. With Paul's POST response arriving after the setter, as the URLSession handler delivers it, the array has three; with the corrected completion it is Max, then Tom. The test passes as written because the mock answers inside the setter, before the client filter runs |
| RestScenarios.IdRangeKeepsTwo | Tests/ELBRUSTests/ELBRUSTests+FilterTests.swift:95-129 | keeping ids between 1 and 2 out of accounts 1, 2 and 3 leaves accounts 1 and 2 |
| RestScenarios.ExistsDropsOthers | Tests/ELBRUSTests/ELBRUSTests+FilterTests.swift:20-40 | an `exists` filter on "Paul" drops Tom's account |
| RestScenarios.SortByNameAscending | Tests/ELBRUSTests/ELBRUSTests+SortTests.swift:20-52 | sorting Tom, Max and Paul ascending by name gives Max, Paul, Tom |
| RestScenarios.SortByNameDescending | Tests/ELBRUSTests/ELBRUSTests+SortTests.swift:57-89 | sorting them descending gives Tom, Paul, Max |
| RestScenarios.PostResponseSkipsClientFilter | Sources/ELBRUS/REST.swift:240-247 | as written, Tom's POST response lands in an array whose client filter keeps only Paul |
| RestScenarios.GetResponseSkipsClientFilter | Sources/ELBRUS/REST.swift:233-238 | as written, after construction with a client filter keeping only Paul, the GET's response puts Tom's account in the array |
| RestScenarios.GetResponseKeptFiltersTom | Sources/ELBRUS/REST.swift:74-93 | with the corrected completion that array stays empty |
| RestScenarios.PostResponseKeptFiltersTom | Tests/ELBRUSTests/ELBRUSTests+FilterTests.swift:20-40 | with the corrected completion that array stays empty, as the test expects |

## Left out

- HTTP transport, JSON coding and Combine scheduling are left out. A request is a record in the log, and a response is an event step applied to the state. Response bodies are parameters.
- The `NetworkHandler` protocol, `URLSessionNetworkHandler` and the mock handler are left out. Only the `Authorization` header the URLSession handler adds is modelled.
- `publisher.send` (REST.swift:124) and the projected value are left out: they only notify observers.
- Caching file I/O (`saveToFile`, `loadFromFile`) is left out. The array written is the `saved` field. The array read is the `loaded` parameter of `Rest.Init`, empty when reading fails.
- `Self.self` in the storage path is the `typeName` parameter of `Rest.Init`.
- The property reflection (`reflectProperty`) is left out. A key path carries its name; a failed reflection is the empty name, as the source's `?? ""` gives.
- `difference(from:).inferringMoves()` is not computed. The difference is an input, constrained by `Rest.Valid` to turn the old array into the new one. `Rest.Write` takes it twice, as the setter computes it twice.
- `REST+Never.swift` is left out: the convenience initializers without strategies are `Rest.Init` with `NoFilter` and `NoSort`.
- The initializer's precondition that the wrapped array starts empty is built in: `Rest.Init` starts from `[]`.
- Rest.DeleteRequest: requires an id. The source force-unwraps the id (REST.swift:264), which crashes on an element without one; a TODO there marks the unwrap for removal, but the model follows the code as written.
- Rest.Write: requires that every unassociated removal of the recomputed difference has an id (`Rest.RemovalsHaveIds`). That is the crash above, excluded rather than modelled. The lemmas about a write carry the same requires.
- PUT and DELETE responses are left out: the source ignores them, and errors are swallowed.
- The log holds the requests handed to the network handler, not the requests that reached the server. The URLSession handler builds each request as a `dataTaskPublisher` (URLSessionNetworkHandler.swift:41, 56). Cancelling the subscription, which storing a newer one in the same slot does, also cancels that data task. So a superseded PUT, POST or DELETE may never reach the server: the first of `RestScenarios.TwoPostsKeepTheLast`'s two POSTs, or the first of two DELETEs in one assignment. The model does not say which of them did.
- Responses are later event steps, as the URLSession handler delivers them with `receive(on: DispatchQueue.main)` (URLSessionNetworkHandler.swift:44, 59). The mock handler answers a POST, PUT or DELETE with a `Just` publisher (MockNetworkCall.swift:50-56), synchronously inside `internalPost`. So in the repository's tests a POST response is appended before the setter runs `filter()` and `sort()` (REST.swift:106-118), and the client filter and sort tests pass. The model does not cover that synchronous ordering. The GET is still delivered later even by the mock (`receive(on: RunLoop.main)`, REST.swift:235), and every test answers it with an empty array.
- KeyPathSort.SortedOnSorts: the sort is modelled as a stable insertion sort. The contract promises a permutation in order and not stability, because Swift's `sorted(by:)` promises no stability either.
- A `Filter` or `Sorter` is a class, and its `applied` flag is shared by every wrapper holding the same instance. The model keeps one flag per wrapper in `Rest.State`.
- The query is kept as structured items (`Services.QueryString` joins them with `&` and `=`). Percent-encoding by `URLComponents` is not modelled.
- The mock handler's bookkeeping is not modelled. The server-filter tests (ELBRUSTests+FilterTests.swift:136-275) and the combined server test (ELBRUSTests+FilterAndSortTests.swift:20-35) register a single GET. The code sends more than one, whenever the mock answers:
  - with a server filter, construction sends two GETs: the filter's and the final one;
  - with a server sort as well, it sends three, and the first goes to the address without the `sort_by` item;
  - `RestProperties.InitRequests` and the `RestScenarios` filter-translator lemmas state these GETs;
  - the mock fails on every GET after the first (MockNetworkHandler.swift:96-98).

  The server-sort tests register the two GETs the code sends. The model follows the code.
- Elements.Less: texts compare code point by code point, and `exists` compares texts with equality on code points. Swift compares `String` values by canonical equivalence, so `"é"` and `"e\u{301}"` are equal in Swift but not in the model, and ordering can differ the same way. Unicode normalization is not modelled.
- Services.NewService: takes a URL without a query. `URLComponents(url:)` (Service.swift:25) keeps a query that is already in the URL. `appendingPathComponent` (Service.swift:35) then puts the route before that query. The model starts every service with no query items and appends routes to the URL as a string.
- `Service` is a class (Service.swift:13), and `filter()` and `sort()` append to its query in place (REST.swift:284-289, 323-328). Bindings that share one `Service` therefore share every query item the others append. The model gives each binding its own `Service` value.

## Findings

| source | as written | input that shows it | evidently intended | confidence | as-written member | corrected member |
|---|---|---|---|---|---|---|
| Sources/ELBRUS/REST.swift:240-247 | a POST response is appended to the array after `filter()` and `sort()` have run, so it skips the client filter and sort. The URLSession handler delivers responses on the main queue asynchronously, after the setter has returned. | a client filter `exists(\Account.name, "Paul")`, then appending `Account(id: nil, name: "Tom")`; the response `Account(id: 1, name: "Tom")` leaves `[Tom]` in the array | the array stays filtered and sorted, as the client filter and sort tests expect (an empty array, and Tom last). Those tests pass as written only because the mock answers a POST synchronously, before `filter()` and `sort()` run | medium, not executed | RestScenarios.PostResponseSkipsClientFilter | RestProperties.PostResponseKept |
| Sources/ELBRUS/REST.swift:233-238 | a GET response is assigned to `_wrappedValue` directly, bypassing the setter, so it skips the client filter and sort. Construction runs `filter()` and `sort()` on the empty array before the GET is sent (REST.swift:74-93) | a client filter `exists(\Account.name, "Paul")` at construction; the GET's response `[Account(id: 1, name: "Tom")]` leaves `[Tom]` in the array | the loaded array is filtered and sorted like every other state of the array | medium, not executed | RestScenarios.GetResponseSkipsClientFilter | RestProperties.GetResponseKept |
