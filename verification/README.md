# Contract browser search and network preference, modelled in Dafny

The contract browser is the web front end of a Flow blockchain explorer. This project models
its two pieces of decision logic:

- **The search box** (`components/Search.tsx`). Each time the query changes, the box does
  exactly one of four things. A query of at most two UTF-16 code units is ignored. An
  account address (`/^(?:0x)?[0-9a-fA-F]{8,16}$/`) navigates to `/account/<q>` and clears
  the query. A contract path (`/^(?:A\.)?[0-9a-fA-F]{8,16}\.[\w-]+$/`) navigates to `/<q>`
  and clears the query. Anything else starts a search. A search sends one request per chain
  environment (mainnet, testnet). Each environment keeps its own last response and its own
  loading flag. The header total and each tab's panel are derived from the two.
- **The network preference** (`components/UserNav.tsx`). It tracks the selected network and
  the network the wallet client is configured for. A reconcile step runs after every render
  and is driven by the optional `network` URL parameter. The menu can also change the
  network. The menu's account links are built from the user's address.

Modules, one per file:

| file | module | what |
|---|---|---|
| `wrappers.dfy` | `Wrappers` | `Option`, for absent JavaScript values |
| `patterns.dfy` | `Patterns` | the two regular expressions, as character predicates; a ghost reference language for each; proofs that the matchers decide the languages and that the languages are disjoint |
| `query_dispatch.dfy` | `QueryDispatch` | JavaScript string length, the classification, the effect of a query change, the routes |
| `search_requests.dfy` | `SearchRequests` | environments, the request pair of a search, the request URL as written and corrected |
| `query_string.dfy` | `QueryString` | how an endpoint reads a URL's query string (the WHATWG URL standard's removal of tabs and newlines and its query/fragment split, then application/x-www-form-urlencoded parsing) and percent-encoding |
| `search_results.dfy` | `SearchResults` | per-environment results and loading flags, the counts, the tab panels |
| `search_component.dfy` | `SearchComponent` | the component as a state machine over events, and the invariant every reachable state keeps |
| `user_nav.dfy` | `UserNav` | initial network, `changeNetwork`, the reconcile effect, the account links, the contract count |

Behaviour of the code worth knowing when reading the model:

- Each tab draws its loading spinner above the table or the empty state
  (`components/Search.tsx:120-122`, `129-133`). While mainnet is loading, its panel shows
  the spinner and also the skeleton table or the previous results. Testnet's "No results."
  text is hidden while testnet loads.
- Both patterns require at least eight characters, so the length guard on line 58 never
  hides a navigation.
- With the `A.` prefix, a contract path contains two dots. The disjointness proof only
  needs "an account address has no dot; a contract path has at least one".
- The effect runs after every render. A menu choice therefore lasts only until the next
  render whenever the URL carries a different non-empty `network` parameter
  (`UserNav.MenuChoiceYieldsToParam`).

## Model

| member | source | states |
|---|---|---|
| `Patterns.AccountMatcherCorrect` | components/Search.tsx:63 | the executable account matcher accepts exactly the strings that are an optional `0x` followed by 8 to 16 hex digits of either case |
| `Patterns.ContractBodyMatcherCorrect` | components/Search.tsx:68 | the dot-splitting matcher accepts exactly the strings of 8–16 hex digits, one dot, and one or more `[A-Za-z0-9_-]` |
| `Patterns.ContractMatcherCorrect` | components/Search.tsx:68 | the executable contract matcher accepts exactly the optional `A.` prefix followed by such a body |
| `Patterns.AccountShape` | components/Search.tsx:63 | an account address has 8 to 18 characters, none a dot, all ASCII |
| `Patterns.ContractShape` | components/Search.tsx:68 | a contract path has at least 10 ASCII characters including a dot, and starts with eight hex digits or with `A.` |
| `Patterns.PatternsDisjoint` | components/Search.tsx:62-72 | no query matches both patterns, so the order of the two cases never matters |
| `QueryDispatch.Utf16Length` | components/Search.tsx:58 | JavaScript's `length` counts at least one and at most two units per character |
| `QueryDispatch.AsciiUtf16Length` | components/Search.tsx:58 | on ASCII text, JavaScript's `length` is the number of characters |
| `QueryDispatch.NavigationQueriesAreLong` | components/Search.tsx:58-72 | any query matching either pattern is ASCII with length at least 8, so it passes the `length > 2` guard |
| `QueryDispatch.Classify` | components/Search.tsx:58-75 | short exactly when length ≤ 2; account exactly when the account pattern matches; contract exactly when the contract pattern matches; free text exactly when longer than 2 and neither matches |
| `QueryDispatch.OnQueryChange` | components/Search.tsx:57-77 | short query: no effect, query kept; account: navigate to `/account/`+q and clear; contract: navigate to `/`+q and clear; otherwise one search carrying q unmodified; navigation needs ≥ 8 characters |
| `QueryDispatch.ReactionSettles` | components/Search.tsx:57-82 | after a navigation the cleared query triggers nothing; otherwise the query is unchanged, so one edit causes at most one navigation or search |
| `QueryDispatch.NavigationDeterminesQuery` | components/Search.tsx:63-72 | two queries that push the same route are the same query |
| `QueryDispatch.AccountRouteIsNotContractRoute` | components/Search.tsx:67-72 | an account route never equals a contract route |
| `SearchRequests.Fetches` | components/Search.tsx:41-53 | a search sends two requests, one for each environment, with identical query, offset and limit |
| `SearchRequests.Decimal` | components/Search.tsx:41 | a number in the URL is written as base-10 digits without a leading zero |
| `SearchRequests.DecimalRoundTrip` | components/Search.tsx:41 | reading the digits back gives the number written |
| `SearchRequests.SplitUrl` | components/Search.tsx:41 | the query string of a search URL splits at `&` back into exactly the pairs joined, when the base holds no `?` or `#` and no pair holds `&`, `#`, a tab or a newline |
| `SearchRequests.PairsSeparable` | components/Search.tsx:41 | the four pairs hold no `&`, `#`, tab or newline when the query text holds none of them |
| `SearchRequests.ReadPairs` | components/Search.tsx:41 | reading the four pairs by name gives the environment name, the decoded query text, the offset and the limit, each from its own pair |
| `SearchRequests.SearchUrlRoundTrip` | components/Search.tsx:41-48 | with the query encoded, the endpoint reads back the environment name, the exact query, the offset and the limit |
| `SearchRequests.RawSearchUrlTruncatesQuery` | components/Search.tsx:41-48 | as written, a query `a&b` reaches the endpoint as the query `a`, for plain `a` and `b` (no `&`, `#`, `%`, `+`, tab or newline) |
| `SearchRequests.AmpersandQueryReachesEndpointAsX` | components/Search.tsx:41-48 | as written, the query `x&y` reaches the endpoint as `x`, on either environment |
| `QueryString.QueryOfUrl` | components/Search.tsx:41 | the query of `prefix?query` is `query` with every tab, line feed and carriage return removed, when the prefix holds no `?` or `#` and the query no `#` |
| `QueryString.FragmentHidesQuery` | components/Search.tsx:41 | a `#` before the first `?` starts the fragment, and such a URL carries no query at all |
| `QueryString.SplitJoin` | components/Search.tsx:41 | splitting the joined pairs on `&` gives the pairs back when none contains `&` |
| `QueryString.JoinSplit` | components/Search.tsx:41 | joining the pieces of a split gives the original string |
| `QueryString.DecodeEncode` | components/Search.tsx:41 | percent-decoding undoes percent-encoding for every string |
| `QueryString.PercentEncode` | components/Search.tsx:41 | the encoded query contains no `&`, `#`, `+`, `=`, tab or newline, so the URL parser removes nothing from it |
| `SearchResults.StartFetch` | components/Search.tsx:35-37 | a search sets both loading flags and keeps both previous responses |
| `SearchResults.Receive` | components/Search.tsx:43-52 | a response replaces its own environment's response and clears its own loading flag; the other environment is unchanged |
| `SearchResults.ReceiveCommutes` | components/Search.tsx:41-53 | responses from the two environments may arrive in either order with the same outcome |
| `SearchResults.ReceiveOverwrites` | components/Search.tsx:44-45 | a later response for an environment overwrites the earlier one wholesale |
| `SearchResults.SearchCompletes` | components/Search.tsx:35-53 | once both responses of a search are in, nothing is loading and each environment holds its own response |
| `SearchResults.TotalAfterReceive` | components/Search.tsx:102 | a response changes the total by exactly the change in its own environment's count |
| `SearchResults.TotalIgnoresLoading` | components/Search.tsx:102 | starting a search leaves the total as it was; on mount it is 0 |
| `SearchResults.RenderPanel` | components/Search.tsx:109-133 | the tab's badge is its own environment's `total_contracts_count` as received, absent when missing; the heading is that count defaulting to 0; the spinner shows exactly while loading; the table shows exactly when there are rows; otherwise mainnet shows the skeleton and testnet shows "No results.", hidden while loading |
| `SearchResults.NoResultsHiddenWhileLoading` | components/Search.tsx:129-132 | "No results." is never visible while its environment is loading |
| `SearchResults.ReceiveRendersOwnPanelOnly` | components/Search.tsx:115-133 | a response leaves the other tab's panel unchanged; its own panel loses the spinner, shows the table exactly when the response has rows, and shows the response's count |
| `SearchResults.TotalIsSumOfHeadings` | components/Search.tsx:102-127 | the header total is the sum of the two panel headings |
| `SearchComponent.OnQuery` | components/Search.tsx:57-82 | applied to the whole component: a short query changes only the query; a navigation clears the query and pushes one route, leaving results and requests alone; a free-text query sets both loading flags and appends exactly the two requests of its search |
| `SearchComponent.StepValid` | components/Search.tsx:19-133 | every event preserves the invariant: offset 0 and limit 50, only account and contract pages pushed, requests sent in mainnet/testnet pairs for free-text queries |
| `SearchComponent.RunValid` | components/Search.tsx:19-133 | the invariant holds after any sequence of events |
| `SearchComponent.MountedValid` | components/Search.tsx:19-28 | the mounted component satisfies the invariant |
| `SearchComponent.TabClickChangesOnlyTab` | components/Search.tsx:109-110 | clicking a tab changes the selected tab only: nothing is sent and the results stay |
| `SearchComponent.QueryEditSends` | components/Search.tsx:57-82 | a query edit sends nothing, or exactly the two requests of one free-text search |
| `SearchComponent.AmpersandQueryIsSearchedAsX` | components/Search.tsx:41-76 | `x&y` is free text and is searched, and each of its two URLs asks the endpoint for `x` |
| `SearchComponent.SentQueriesReachEndpoint` | components/Search.tsx:41-48 | with the query encoded, every request sent carries its exact query and environment name to the endpoint |
| `UserNav.InitialSelection` | components/UserNav.tsx:43 | with no connected address, the initial selection is `mainnet`; otherwise it is the address's network |
| `UserNav.FirstRender` | components/UserNav.tsx:43-61 | after mount and the first run of the effect, a non-empty parameter is selected and otherwise the initial selection stays, and the client is configured for it; with no address and no parameter that is `mainnet` |
| `UserNav.ChangeNetwork` | components/UserNav.tsx:49-52 | the selection becomes exactly the chosen network and the client is configured for it |
| `UserNav.Reconcile` | components/UserNav.tsx:54-61 | the client is configured for the resulting selection; the selection changes exactly when the parameter is present, non-empty and different, and then it becomes the parameter |
| `UserNav.ReconcileFollowsParam` | components/UserNav.tsx:55-57 | with a non-empty parameter, the selection and the configured network are the parameter afterwards |
| `UserNav.ReconcileKeepsSelection` | components/UserNav.tsx:58-60 | with the parameter absent, empty or equal to the selection, the selection stays and is configured again |
| `UserNav.ReconcileIdempotent` | components/UserNav.tsx:54-61 | reconciling twice with the same parameter is the same as reconciling once |
| `UserNav.RerenderStable` | components/UserNav.tsx:54-61 | any number of further renders with the same parameter leave the reconciled state unchanged |
| `UserNav.MenuChoiceYieldsToParam` | components/UserNav.tsx:146 | after a menu choice, the next render's reconcile selects the URL parameter if it is non-empty |
| `UserNav.MenuChoiceStandsWithoutParam` | components/UserNav.tsx:146 | without a parameter, a menu choice stays selected and configured across renders |
| `UserNav.AccountLinksNameAccount` | components/UserNav.tsx:111-132 | the three menu links (`/account/<addr>/`, `/contracts`, `/contracts/deploy`) and the search's account route all lead to the connected address's pages |
| `UserNav.AccountLinksDistinct` | components/UserNav.tsx:111-132 | the three menu links are different pages |
| `UserNav.ContractCount` | components/UserNav.tsx:128 | the contract shortcut is the number of contract names, or 0 when the field is absent |
| `UserNav.ContractCountGrows` | components/UserNav.tsx:128 | a new contract name raises the shortcut by exactly one |

## Findings

| source | as written | input that shows it | evidently intended | confidence | as-written member | corrected member |
|---|---|---|---|---|---|---|
| components/Search.tsx:41-48 | the query is put into the request URL without encoding (`query=${query}`) | the free-text query `x&y` sends `…&query=x&y&offset=0&limit=50`, which an endpoint reads as the query `x` | the endpoint searches for the text typed, which needs `encodeURIComponent(query)` | medium; not executed | `SearchRequests.RawSearchUrlTruncatesQuery` | `SearchRequests.SearchUrlRoundTrip` |

`SearchRequests.SearchUrl` is the corrected URL, with the query percent-encoded.
`SearchComponent.SentQueriesReachEndpoint` proves that every request the component sends
reaches the endpoint with its exact query. `SearchRequests.RawSearchUrl` is the URL as
written. The endpoint is modelled by the standard reading of a query string (first pair
with the name wins). The endpoint's actual implementation is not part of this model.

## Left out

- Debounce: the 500 ms debounce (`lib/utils`) is not part of this model. A free-text query starts its search at once, and calls collapsed by the debounce are not modelled.
- Fetching: HTTP, JSON parsing and response timing are not modelled. A response is an event that may arrive at any time, in any order, for any earlier search. A failed request is a response that never arrives, so its loading flag stays set.
- The base domain (`NEXT_PUBLIC_BASE_DOMAIN`) is a parameter of the URL functions; it is assumed to contain no `?` and no `#`. A `#` would start the fragment, and the endpoint would then see no query at all (`QueryString.FragmentHidesQuery`).
- The overall `loading` flag, its cleanup function (components/Search.tsx:23, 60, 65, 70, 79-81), and the card's visibility that depends on it (line 97) are left out. They are React lifecycle bookkeeping with no stated contract.
- The "Testnet API is slower" note (line 112) is left out; it is styling tied to the selected tab. The tab itself is modelled.
- Routing and rendering: `router.push` is modelled as appending to the list of pushed routes. A panel is modelled by what it shows, not by its markup.
- `ContractSummary` rows are passed through from the endpoint untouched. The model keeps an address and a name, and nothing depends on their contents.
- QueryString.QueryOf: of the WHATWG URL parser, only the removal of ASCII tabs and newlines and the split into query and fragment are modelled. The rest of the parser (scheme, host, path normalisation, and the encoding of non-ASCII characters) does not touch the query of the URLs built here and is left out.
- QueryString.PercentDecode: each `%XY` decodes to the single character with code XY. The WHATWG parser collects the bytes and decodes them as UTF-8. The two agree on codes below 0x80, the only ones `QueryString.PercentEncode` writes. A `%XY` sequence of UTF-8 bytes for a non-ASCII character is not modelled.
- QueryString.EncodeChar: characters at or above U+0080 are kept as they are. `encodeURIComponent` would emit their UTF-8 bytes, which the endpoint decodes back to the same characters; the byte encoding is not modelled.
- The wallet SDK is not modelled: `fcl.config`, `getNetworkConfig`, and `useCurrentUser` with its `logIn`, `logOut` and `changeUser`. The configured network records which network `config` was last called for.
- `useNetworkForAddress` is not part of this model; the network it returns is a parameter of `UserNav.InitialSelection`.
- `useAccount`, `formatFlowBalance`, and the `.find` profile display (components/UserNav.tsx:77-107, 117) are not part of this model.
- UserNav.AccountLinks: the address is taken to be present. The menu is only rendered for a logged-in user. With no address, JavaScript would write `undefined` into the links.
- `app/layout.tsx` (composition only) and `components/ui/AddressBadge.tsx` (its one decision rests on `getNetworkFromAddress`, which is not part of this model) are left out.
