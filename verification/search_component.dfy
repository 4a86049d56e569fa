/**
 * The search component as a whole: the query box, the routes it has pushed, the requests it
 * has sent, the per-environment results and the selected tab, driven by three kinds of
 * event: the user edits the query, a response arrives, the user clicks a tab.
 */
module SearchComponent {
  import opened Wrappers
  import opened Patterns
  import opened QueryString
  import opened QueryDispatch
  import opened SearchRequests
  import opened SearchResults

  datatype Component = Component(
    query: string,
    offset: nat,
    limit: nat,
    results: Results,
    tab: Env,
    routes: seq<string>,
    sent: seq<Request>)

  const Mounted: Component := Component("", InitialOffset, InitialLimit, Initial, Mainnet, [], [])

  datatype Event =
    | QueryEdited(q: string)
    | ResponseArrived(env: Env, response: SearchResponse)
    | TabClicked(env: Env)

  /** The query is now `q`: run the effect. A search is taken to start at once (the debounce
      that delays it is not modelled). */
  function OnQuery(c: Component, q: string): (c': Component)
    ensures c'.offset == c.offset && c'.limit == c.limit && c'.tab == c.tab
    ensures Utf16Length(q) <= 2 ==> c' == c.(query := q)
    ensures AccountLanguage(q) ==> c' == c.(query := "", routes := c.routes + [AccountRoute(q)])
    ensures ContractLanguage(q) ==> c' == c.(query := "", routes := c.routes + [ContractRoute(q)])
    ensures Classify(q) == FreeText ==>
      && c'.query == q && c'.routes == c.routes
      && c'.results == StartFetch(c.results)
      && c'.sent == c.sent + Fetches(q, c.offset, c.limit)
  {
    var r := OnQueryChange(q);
    match r.effect
    case Idle => c.(query := r.query)
    case Navigate(path) => c.(query := r.query, routes := c.routes + [path])
    case Search(text) =>
      c.(query := r.query, results := StartFetch(c.results), sent := c.sent + Fetches(text, c.offset, c.limit))
  }

  function Step(c: Component, ev: Event): Component {
    match ev
    case QueryEdited(q) => OnQuery(c, q)
    case ResponseArrived(e, resp) => c.(results := Receive(c.results, e, resp))
    case TabClicked(e) => c.(tab := e)
  }

  function Run(c: Component, evs: seq<Event>): Component
    decreases |evs|
  {
    if |evs| == 0 then c else Run(Step(c, evs[0]), evs[1..])
  }

  /** A route the component pushes: the account page of an account address, or the page of a contract path. */
  ghost predicate PushedRoute(path: string) {
    (exists q :: AccountLanguage(q) && path == AccountRoute(q))
    || (exists q :: ContractLanguage(q) && path == ContractRoute(q))
  }

  /** The requests sent so far come in pairs, mainnet then testnet, for one free-text query
      at the component's offset and limit. */
  ghost predicate SentInPairs(sent: seq<Request>, offset: nat, limit: nat) {
    && |sent| % 2 == 0
    && forall k :: 0 <= k < |sent| / 2 ==>
         && sent[2 * k] == Request(Mainnet, sent[2 * k].query, offset, limit)
         && sent[2 * k + 1] == Request(Testnet, sent[2 * k].query, offset, limit)
         && Classify(sent[2 * k].query) == FreeText
  }

  ghost predicate Valid(c: Component) {
    && c.offset == InitialOffset && c.limit == InitialLimit
    && (forall i :: 0 <= i < |c.routes| ==> PushedRoute(c.routes[i]))
    && SentInPairs(c.sent, c.offset, c.limit)
  }

  lemma StepValid(c: Component, ev: Event)
    requires Valid(c)
    ensures Valid(Step(c, ev))
  {
    match ev
    case QueryEdited(q) =>
      match Classify(q) {
        case TooShort =>
        case AccountAddress => NavigateValid(c, q, AccountRoute(q));
        case ContractPath => NavigateValid(c, q, ContractRoute(q));
        case FreeText => SearchValid(c, q);
      }
    case ResponseArrived(e, resp) =>
    case TabClicked(e) =>
  }

  lemma NavigateValid(c: Component, q: string, path: string)
    requires Valid(c) && PushedRoute(path)
    requires OnQuery(c, q) == c.(query := "", routes := c.routes + [path])
    ensures Valid(OnQuery(c, q))
  {
    var c' := OnQuery(c, q);
    assert forall i :: 0 <= i < |c.routes| ==> c'.routes[i] == c.routes[i];
  }

  lemma SearchValid(c: Component, q: string)
    requires Valid(c) && Classify(q) == FreeText
    ensures Valid(OnQuery(c, q))
  {
    assert OnQuery(c, q).sent == c.sent + Fetches(q, c.offset, c.limit);
    SentInPairsAppend(c.sent, q, c.offset, c.limit);
  }

  /** The two requests of one more free-text search extend the pairs sent so far. */
  lemma SentInPairsAppend(sent: seq<Request>, q: string, offset: nat, limit: nat)
    requires SentInPairs(sent, offset, limit) && Classify(q) == FreeText
    ensures SentInPairs(sent + Fetches(q, offset, limit), offset, limit)
  {
    var sent' := sent + [Request(Mainnet, q, offset, limit), Request(Testnet, q, offset, limit)];
    assert sent + Fetches(q, offset, limit) == sent';
    var n := |sent| / 2;
    assert |sent'| == 2 * n + 2;
    forall k | 0 <= k < |sent'| / 2
      ensures sent'[2 * k] == Request(Mainnet, sent'[2 * k].query, offset, limit)
      ensures sent'[2 * k + 1] == Request(Testnet, sent'[2 * k].query, offset, limit)
      ensures Classify(sent'[2 * k].query) == FreeText
    {
      if k < n {
        assert sent'[2 * k] == sent[2 * k] && sent'[2 * k + 1] == sent[2 * k + 1];
      } else {
        assert k == n;
        assert sent'[2 * k] == Request(Mainnet, q, offset, limit);
        assert sent'[2 * k + 1] == Request(Testnet, q, offset, limit);
      }
    }
  }

  /** Every state reachable from mount keeps the invariant: no request is ever sent for an
      account address, a contract path or a short query, requests always go out one per
      environment with the same query, and only account and contract pages are pushed. */
  lemma {:induction false} RunValid(c: Component, evs: seq<Event>)
    requires Valid(c)
    ensures Valid(Run(c, evs))
    decreases |evs|
  {
    if |evs| > 0 {
      StepValid(c, evs[0]);
      RunValid(Step(c, evs[0]), evs[1..]);
    }
  }

  lemma MountedValid()
    ensures Valid(Mounted)
  {
  }

  /** Clicking a tab changes the selected tab only: it sends nothing and leaves the results. */
  lemma TabClickChangesOnlyTab(c: Component, e: Env)
    ensures Step(c, TabClicked(e)) == c.(tab := e)
    ensures Step(c, TabClicked(e)).sent == c.sent && Step(c, TabClicked(e)).results == c.results
  {
  }

  /** Editing the query sends either nothing or exactly the two requests of one search. */
  lemma QueryEditSends(c: Component, q: string)
    ensures var c' := OnQuery(c, q);
      || c'.sent == c.sent
      || (c'.sent == c.sent + Fetches(q, c.offset, c.limit) && Classify(q) == FreeText)
  {
  }

  /** The free-text query `x&y` is searched, and the URL the component builds for it tells
      the endpoint to search for `x`. */
  lemma AmpersandQueryIsSearchedAsX(c: Component, base: string)
    requires Valid(c) && '?' !in base && '#' !in base
    ensures Classify("x&y") == FreeText
    ensures var c' := OnQuery(c, "x&y");
      forall i :: |c.sent| <= i < |c'.sent| ==> ReadParam(RawSearchUrl(base, c'.sent[i]), "query") == Some("x")
  {
    NavigationQueriesAreLong("x&y");
    assert Utf16Length("x&y") == 3;
    var c' := OnQuery(c, "x&y");
    forall i | |c.sent| <= i < |c'.sent|
      ensures ReadParam(RawSearchUrl(base, c'.sent[i]), "query") == Some("x")
    {
      AmpersandQueryReachesEndpointAsX(base, c'.sent[i].network);
    }
  }

  /** With the query encoded, every request the component has sent carries its query to the
      endpoint intact, and names the environment it is for. */
  lemma SentQueriesReachEndpoint(c: Component, base: string)
    requires '?' !in base && '#' !in base
    ensures forall i :: 0 <= i < |c.sent| ==>
      && ReadParam(SearchUrl(base, c.sent[i]), "query") == Some(c.sent[i].query)
      && ReadParam(SearchUrl(base, c.sent[i]), "network") == Some(EnvName(c.sent[i].network))
  {
    forall i | 0 <= i < |c.sent|
      ensures ReadParam(SearchUrl(base, c.sent[i]), "query") == Some(c.sent[i].query)
      ensures ReadParam(SearchUrl(base, c.sent[i]), "network") == Some(EnvName(c.sent[i].network))
    {
      SearchUrlRoundTrip(base, c.sent[i]);
    }
  }
}
